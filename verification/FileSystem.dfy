/** The operations of fs.c on inodes and their contents. A file refines a sequence of bytes. */
module FileSystem {
  import opened Bytes
  import opened Files
  import opened Guards
  import opened Options
  import opened Params
  import opened Space
  import opened Words

  const T_DEV := 3
  const CHUNK := 1536    // ((MAXOPBLOCKS - 1 - 1 - 2) / 2) * 512: what filewrite writes in one operation

  /** The state moves from one in which inode n has some blocks to one in which it has those and maybe more: no pointer
      that was set changes, and no file's bytes do. */
  ghost predicate Grown(sb: Superblock, blk: Blocks, ip: seq<Inode>, blk': Blocks, ip': seq<Inode>, n: nat) {
    && InodesOk(ip) && InodesOk(ip') && DiskOk(sb, blk) && DiskOk(sb, blk') && |ip'| == |ip| && n < |ip|
    && forall y: nat | Parts(y) ::
      && (forall m | 0 <= m < |ip| && m != n :: ip'[m] == ip[m])
      && ip'[n] == ip[n].(addrs := ip'[n].addrs)
      && (forall m, k | 0 <= m < |ip| && 0 <= k < SLOTS && Ref(blk, ip[m], k) != 0 ::
            Ref(blk', ip'[m], k) == Ref(blk, ip[m], k))
      && SameBytes(blk, ip, blk', ip')
      && (forall x | 0 <= x < sb.bmapstart :: blk'[x] == blk[x])
  }

  lemma GrownTrans(sb: Superblock, blk: Blocks, ip: seq<Inode>, blk1: Blocks, ip1: seq<Inode>,
                   blk2: Blocks, ip2: seq<Inode>, n: nat)
    requires Grown(sb, blk, ip, blk1, ip1, n) && Grown(sb, blk1, ip1, blk2, ip2, n)
    ensures Grown(sb, blk, ip, blk2, ip2, n)
  {
    assert Parts(0);
  }

  /** balloc and ip->addrs[k] = b, on the way to file block bn */
  lemma AllocAddr(sb: Superblock, blk: Blocks, ip: seq<Inode>, owner: Owner, n: nat, k: nat, b: nat, bn: nat)
    requires Owned(sb, blk, ip, owner, {}) && n < |ip| && k <= INDIRECT && ip[n].addrs[k] == 0
    requires b < sb.size && !Used(sb, blk, b)
    requires bn < MAXFILE && (k == SlotOf(bn) || (k == INDIRECT && bn >= NDIRECT))
    ensures var blk', ip' := AllocBlock(sb, blk, b), SetAddr(ip, n, k, b);
            && Owned(sb, blk', ip', owner[b := (n, k)], {}) && Grown(sb, blk, ip, blk', ip', n)
            && Ref(blk', ip'[n], k) == b != 0 && Spent(sb, blk, ip[n], blk', ip'[n], bn)
  {
    assert Parts(0);
    AllocOwned(sb, blk, ip, owner, {}, b);
    AllocFrame(sb, blk, b);
    LinkDirect(sb, AllocBlock(sb, blk, b), ip, owner, {b}, n, k, b);
    LinkSpent(sb, blk, ip[n], AllocBlock(sb, blk, b), SetAddr(ip, n, k, b)[n], k, b, bn);
    assert {b} - {b} == {} && {} + {b} == {b};
  }

  /** balloc and a[i] = b in the indirect block */
  lemma AllocEntry(sb: Superblock, blk: Blocks, ip: seq<Inode>, owner: Owner, n: nat, i: nat, b: nat)
    requires Owned(sb, blk, ip, owner, {}) && n < |ip| && i < NINDIRECT && ip[n].addrs[INDIRECT] != 0
    requires Ref(blk, ip[n], INDIRECT + 1 + i) == 0 && b < sb.size && !Used(sb, blk, b)
    ensures ip[n].addrs[INDIRECT] < sb.size
    ensures var blk', k := SetEntry(AllocBlock(sb, blk, b), ip[n].addrs[INDIRECT], i, b), INDIRECT + 1 + i;
            && Owned(sb, blk', ip, owner[b := (n, k)], {}) && Grown(sb, blk, ip, blk', ip, n)
            && Ref(blk', ip[n], k) == b != 0 && Spent(sb, blk, ip[n], blk', ip[n], NDIRECT + i)
  {
    var blk1, a, k := AllocBlock(sb, blk, b), ip[n].addrs[INDIRECT], INDIRECT + 1 + i;
    AllocOwned(sb, blk, ip, owner, {}, b);
    AllocFrame(sb, blk, b);
    assert {b} - {b} == {} && {} + {b} == {b};
    LinkEntry(sb, blk1, ip, owner, {b}, n, i, b);
    AllocGrown(sb, blk, ip, blk1, n);
    EntryGrown(sb, blk1, ip, SetEntry(blk1, a, i, b), n, INDIRECT + 1 + i, b, a);
    GrownTrans(sb, blk, ip, blk1, ip, SetEntry(blk1, a, i, b), ip, n);
    EntrySpent(sb, blk, ip[n], blk1, i, b);
  }

  lemma EntrySpent(sb: Superblock, blk: Blocks, ino: Inode, blk1: Blocks, i: nat, b: nat)
    requires DiskOk(sb, blk) && DiskOk(sb, blk1) && InodeOk(ino) && i < NINDIRECT
    requires 0 < b < sb.size && !Used(sb, blk, b) && Ref(blk, ino, INDIRECT + 1 + i) == 0
    requires sb.datastart <= ino.addrs[INDIRECT] < sb.size
    requires forall c | 0 <= c < sb.size :: Used(sb, blk1, c) <==> c == b || Used(sb, blk, c)
    requires var blk' := SetEntry(blk1, ino.addrs[INDIRECT], i, b);
             forall j | 0 <= j < SLOTS :: Ref(blk', ino, j) == if j == INDIRECT + 1 + i then b else Ref(blk, ino, j)
    ensures Spent(sb, blk, ino, SetEntry(blk1, ino.addrs[INDIRECT], i, b), ino, NDIRECT + i)
  {
    var a := ino.addrs[INDIRECT];
    var blk' := SetEntry(blk1, a, i, b);
    forall c | 0 <= c < sb.size ensures Used(sb, blk', c) <==> c == b || Used(sb, blk, c) {
      DataWriteUsed(sb, blk1, a, blk'[a], c);
    }
    LinkSpent(sb, blk, ino, blk', ino, INDIRECT + 1 + i, b, NDIRECT + i);
  }

  lemma AllocGrown(sb: Superblock, blk: Blocks, ip: seq<Inode>, blk1: Blocks, n: nat)
    requires DiskOk(sb, blk) && DiskOk(sb, blk1) && InodesOk(ip) && n < |ip| && SameBytes(blk, ip, blk1, ip)
    requires forall x | 0 <= x < sb.bmapstart :: blk1[x] == blk[x]
    requires forall m, k | 0 <= m < |ip| && 0 <= k < SLOTS :: Ref(blk1, ip[m], k) == Ref(blk, ip[m], k)
    ensures Grown(sb, blk, ip, blk1, ip, n)
  {}

  lemma EntryGrown(sb: Superblock, blk: Blocks, ip: seq<Inode>, blk1: Blocks, n: nat, k: nat, b: nat, a: nat)
    requires DiskOk(sb, blk) && DiskOk(sb, blk1) && InodesOk(ip) && n < |ip| && SameBytes(blk, ip, blk1, ip)
    requires Linked(blk, ip, blk1, ip, n, k, b) && Ref(blk, ip[n], k) == 0
    requires sb.bmapstart <= a < |blk| && forall x | 0 <= x < |blk| && x != a :: blk1[x] == blk[x]
    ensures Grown(sb, blk, ip, blk1, ip, n)
  {}

  /** The blocks that bmap for file block bn may change: the indirect block and the one it returns, each with the
      block of the free map that marks it. */
  ghost predicate MapCost(sb: Superblock, blk: Blocks, ino: Inode, bn: nat, x: nat)
    requires InodeOk(ino) && bn < MAXFILE
  {
    var a, b := Ref(blk, ino, INDIRECT), Ref(blk, ino, SlotOf(bn));
    (a != 0 && (x == a || x == BBlock(sb, a))) || (b != 0 && (x == b || x == BBlock(sb, b)))
  }

  ghost predicate MapCharged(sb: Superblock, w0: set<nat>, w: set<nat>, blk: Blocks, ino: Inode, bn: nat)
    requires InodeOk(ino) && bn < MAXFILE
  {
    forall x: nat | x in w && x !in w0 :: MapCost(sb, blk, ino, bn, x)
  }

  /** Every block below the size is mapped. */
  ghost predicate Dense(blk: Blocks, ino: Inode)
    requires InodeOk(ino)
  {
    forall bn | 0 <= bn < MAXFILE && bn * BSIZE < ino.size :: Ref(blk, ino, SlotOf(bn)) != 0
  }

  /** The bytes of a file. */
  ghost function Contents(blk: Blocks, ino: Inode): (s: seq<Byte>)
    requires InodeOk(ino)
  {
    seq(ino.size, p requires 0 <= p < ino.size => RawByte(blk, ino, p))
  }

  ghost predicate Sound(sb: Superblock, blk: Blocks, ip: seq<Inode>, owner: Owner) {
    && Owned(sb, blk, ip, owner, {}) && |ip| == sb.ninodes
    && forall n | 0 <= n < |ip| :: Dense(blk, ip[n])
  }

  /** The inodes on disk are those in memory. */
  ghost predicate Synced(sb: Superblock, blk: Blocks, ip: seq<Inode>)
    requires DiskOk(sb, blk) && |ip| == sb.ninodes
  {
    forall n | 0 <= n < |ip| :: DiskInode(sb, blk, n) == ip[n]
  }

  /** What readi and writei return; Panic is a stopped run. */
  datatype Io = Done(count: nat) | Error | Panic

  /** Bytes `src` written at `off` of a file with bytes s, with off at most the size. */
  function WriteAt(s: seq<Byte>, off: nat, src: seq<Byte>): (r: seq<Byte>)
    requires off <= |s|
  {
    s[..off] + src + if off + |src| <= |s| then s[off + |src|..] else []
  }

  /** The pointers: none is lost, and everything below the end of the write is mapped. */
  ghost predicate MappedStage(blk0: Blocks, ip0: seq<Inode>, blk: Blocks, ip: seq<Inode>, n: nat, end: nat)
    requires InodesOk(ip0) && InodesOk(ip) && |ip| == |ip0| && n < |ip0|
  {
    forall x: nat | Parts(x) ::
      && (forall m, k | 0 <= m < |ip| && 0 <= k < SLOTS && Ref(blk0, ip0[m], k) != 0 :: Ref(blk, ip[m], k) != 0)
      && (forall bn | 0 <= bn < MAXFILE && bn * BSIZE < end :: Ref(blk, ip[n], SlotOf(bn)) != 0)
  }

  /** The rest: only the pointers of inode n may change, and those only if the write reaches past the size; the
      blocks of inodes do not change. */
  ghost predicate FrameStage(sb: Superblock, blk0: Blocks, ip0: seq<Inode>, blk: Blocks, ip: seq<Inode>, n: nat,
                             end: nat) {
    && InodesOk(ip0) && InodesOk(ip) && DiskOk(sb, blk0) && DiskOk(sb, blk) && |ip| == |ip0| && n < |ip0|
    && (end <= ip0[n].size ==> ip == ip0)
    && forall y: nat | Parts(y) ::
      && (forall m | 0 <= m < |ip| && m != n :: ip[m] == ip0[m])
      && ip[n] == ip0[n].(addrs := ip[n].addrs)
      && (forall x | 0 <= x < sb.bmapstart :: blk[x] == blk0[x])
  }

  ghost predicate WriteStage(sb: Superblock, blk0: Blocks, ip0: seq<Inode>, blk: Blocks, ip: seq<Inode>,
                             n: nat, off: nat, src: seq<Byte>, tot: nat)
  {
    && InodesOk(ip0) && InodesOk(ip) && DiskOk(sb, blk0) && DiskOk(sb, blk) && |ip| == |ip0| && n < |ip0|
    && tot <= |src|
    && ip[n].size == ip0[n].size
    && FrameStage(sb, blk0, ip0, blk, ip, n, off + tot)
    && BytesStage(blk0, ip0, blk, ip, n, off, src, tot)
    && MappedStage(blk0, ip0, blk, ip, n, off + tot)
  }

  lemma FrameStep(sb: Superblock, blk0: Blocks, ip0: seq<Inode>, blk: Blocks, ip: seq<Inode>, blk1: Blocks,
                  ip1: seq<Inode>, n: nat, end: nat, end': nat, a: nat, v: Block)
    requires FrameStage(sb, blk0, ip0, blk, ip, n, end) && Grown(sb, blk, ip, blk1, ip1, n)
    requires end <= end' && (end' <= ip0[n].size ==> ip1 == ip) && sb.datastart <= a < sb.size
    ensures FrameStage(sb, blk0, ip0, blk1[a := v], ip1, n, end')
  {
    assert Parts(0);
  }

  lemma BytesStep(blk0: Blocks, ip0: seq<Inode>, blk: Blocks, ip: seq<Inode>, blk1: Blocks, ip1: seq<Inode>,
                  blk2: Blocks, n: nat, off: nat, src: seq<Byte>, tot: nat, m: nat, at: nat, bytes: seq<Byte>)
    requires InodesOk(ip0) && InodesOk(ip) && InodesOk(ip1) && |ip0| == |ip| == |ip1| && tot + m <= |src|
    requires at == off + tot && bytes == src[tot..tot + m]
    requires BytesStage(blk0, ip0, blk, ip, n, off, src, tot) && SameBytes(blk, ip, blk1, ip1)
    requires BytesStage(blk1, ip1, blk2, ip1, n, at, bytes, |bytes|)
    ensures BytesStage(blk0, ip0, blk2, ip1, n, off, src, tot + m)
  {
    assert Parts(0);
    forall i, p | 0 <= i < |ip| && 0 <= p < MAXFILE * BSIZE
      ensures RawByte(blk2, ip1[i], p) ==
              if i == n && off <= p < off + tot + m then src[p - off] else RawByte(blk0, ip0[i], p)
    {
      assert RawByte(blk1, ip1[i], p) == RawByte(blk, ip[i], p);
    }
  }

  lemma MappedStep(sb: Superblock, blk0: Blocks, ip0: seq<Inode>, blk: Blocks, ip: seq<Inode>, blk1: Blocks,
                   ip1: seq<Inode>, blk2: Blocks, n: nat, end: nat, m: nat, bn: nat)
    requires InodesOk(ip0) && |ip0| == |ip| && Grown(sb, blk, ip, blk1, ip1, n)
    requires MappedStage(blk0, ip0, blk, ip, n, end) && bn < MAXFILE && bn * BSIZE <= end && end + m <= (bn + 1) * BSIZE
    requires Ref(blk1, ip1[n], SlotOf(bn)) != 0
    requires forall i, k | 0 <= i < |ip| && 0 <= k < SLOTS :: Ref(blk2, ip1[i], k) == Ref(blk1, ip1[i], k)
    ensures MappedStage(blk0, ip0, blk2, ip1, n, end + m)
  {
    assert Parts(0);
    forall b | 0 <= b < MAXFILE && b * BSIZE < end + m ensures Ref(blk2, ip1[n], SlotOf(b)) != 0 {
      if b * BSIZE < end {
        assert Ref(blk, ip[n], SlotOf(b)) != 0;
      } else {
        assert b == bn;
      }
      assert Ref(blk2, ip1[n], SlotOf(b)) == Ref(blk1, ip1[n], SlotOf(b));
    }
  }

  /** One iteration: bmap, and then m bytes into the block it returns. */
  lemma WriteStep(sb: Superblock, blk0: Blocks, ip0: seq<Inode>, blk: Blocks, ip: seq<Inode>, blk1: Blocks,
                  ip1: seq<Inode>, owner1: Owner, n: nat, off: nat, src: seq<Byte>, tot: nat, m: nat, bn: nat, o: nat,
                  bytes: seq<Byte>)
    requires WriteStage(sb, blk0, ip0, blk, ip, n, off, src, tot) && Dense(blk0, ip0[n])
    requires Owned(sb, blk1, ip1, owner1, {}) && Grown(sb, blk, ip, blk1, ip1, n)
    requires 0 < m <= |src| - tot && bytes == src[tot..tot + m]
    requires bn < MAXFILE && off + tot == bn * BSIZE + o && o + m <= BSIZE
    requires Ref(blk1, ip1[n], SlotOf(bn)) != 0
    requires Ref(blk, ip[n], SlotOf(bn)) != 0 ==> ip1 == ip
    ensures var a := Ref(blk1, ip1[n], SlotOf(bn));
            && sb.datastart <= a < sb.size
            && Owned(sb, blk1[a := Splice(blk1[a], o, bytes)], ip1, owner1, {})
            && (forall k | 0 <= k < SLOTS ::
                  Ref(blk1[a := Splice(blk1[a], o, bytes)], ip1[n], k) == Ref(blk1, ip1[n], k))
            && WriteStage(sb, blk0, ip0, blk1[a := Splice(blk1[a], o, bytes)], ip1, n, off, src, tot + m)
  {
    var end, a := off + tot, Ref(blk1, ip1[n], SlotOf(bn));
    DataWrite(sb, blk1, ip1, owner1, n, bn, o, bytes, end);
    var v := Splice(blk1[a], o, bytes);
    if end + m <= ip0[n].size {
      MappedBelow(blk0, ip0, blk, ip, n, end, bn);
    }
    GrownBytes(sb, blk, ip, blk1, ip1, n);
    FrameStep(sb, blk0, ip0, blk, ip, blk1, ip1, n, end, end + m, a, v);
    BytesStep(blk0, ip0, blk, ip, blk1, ip1, blk1[a := v], n, off, src, tot, m, end, bytes);
    MappedStep(sb, blk0, ip0, blk, ip, blk1, ip1, blk1[a := v], n, end, m, bn);
  }

  /** A block below the size is mapped, and stays so. */
  lemma MappedBelow(blk0: Blocks, ip0: seq<Inode>, blk: Blocks, ip: seq<Inode>, n: nat, end: nat, bn: nat)
    requires InodesOk(ip0) && InodesOk(ip) && |ip| == |ip0| && n < |ip0| && MappedStage(blk0, ip0, blk, ip, n, end)
    requires Dense(blk0, ip0[n]) && bn < MAXFILE && bn * BSIZE < ip0[n].size
    ensures Ref(blk, ip[n], SlotOf(bn)) != 0
  {
    assert Parts(0);
    assert Ref(blk0, ip0[n], SlotOf(bn)) != 0;
  }

  lemma GrownBytes(sb: Superblock, blk: Blocks, ip: seq<Inode>, blk1: Blocks, ip1: seq<Inode>, n: nat)
    requires Grown(sb, blk, ip, blk1, ip1, n)
    ensures SameBytes(blk, ip, blk1, ip1) && ip1[n].size == ip[n].size
  {
    assert Parts(0);
  }

  /** The files other than n are as before, and n has src written at off. */
  ghost predicate Written(blk0: Blocks, ip0: seq<Inode>, blk: Blocks, ip: seq<Inode>, n: nat, off: nat, src: seq<Byte>)
    requires InodesOk(ip0) && InodesOk(ip) && |ip| == |ip0| && n < |ip0| && off <= ip0[n].size
  {
    && Contents(blk, ip[n]) == WriteAt(Contents(blk0, ip0[n]), off, src)
    && forall m | 0 <= m < |ip| && m != n :: ip[m] == ip0[m] && Contents(blk, ip[m]) == Contents(blk0, ip0[m])
  }

  lemma SpliceTwice(s: seq<Byte>, off: nat, a: seq<Byte>, b: seq<Byte>)
    requires off <= |s|
    ensures WriteAt(WriteAt(s, off, a), off + |a|, b) == WriteAt(s, off, a + b)
  {}

  /** One write after the other is one write. */
  lemma WrittenMore(blk0: Blocks, ip0: seq<Inode>, blk1: Blocks, ip1: seq<Inode>, blk: Blocks, ip: seq<Inode>, n: nat,
                    off: nat, src: seq<Byte>, i: nat, j: nat)
    requires InodesOk(ip0) && InodesOk(ip1) && InodesOk(ip) && |ip0| == |ip1| == |ip| && n < |ip| && i <= j <= |src|
    requires off <= ip0[n].size && off + i <= ip1[n].size && Written(blk0, ip0, blk1, ip1, n, off, src[..i])
    requires Written(blk1, ip1, blk, ip, n, off + i, src[i..j])
    ensures Written(blk0, ip0, blk, ip, n, off, src[..j])
  {
    SpliceTwice(Contents(blk0, ip0[n]), off, src[..i], src[i..j]);
    assert src[..i] + src[i..j] == src[..j];
  }

  /** The first i bytes of src have been written at off: all but file n is as before, and so is all if i is 0. */
  ghost predicate Sofar(blk0: Blocks, ip0: seq<Inode>, blk: Blocks, ip: seq<Inode>, n: nat, off: nat, src: seq<Byte>,
                        i: nat)
  {
    && InodesOk(ip0) && InodesOk(ip) && |ip| == |ip0| && n < |ip| && i <= |src| && ip[n].typ == ip0[n].typ
    && forall y: nat | Parts(y) ::
      if i == 0 then blk == blk0 && ip == ip0
      else off <= ip0[n].size && off + i <= ip[n].size && Written(blk0, ip0, blk, ip, n, off, src[..i])
  }

  lemma SofarNone(blk: Blocks, ip: seq<Inode>, n: nat, off: nat, src: seq<Byte>)
    requires InodesOk(ip) && n < |ip|
    ensures Sofar(blk, ip, blk, ip, n, off, src, 0)
  {}

  lemma SofarMore(blk0: Blocks, ip0: seq<Inode>, blk1: Blocks, ip1: seq<Inode>, blk: Blocks, ip: seq<Inode>, n: nat,
                  off: nat, src: seq<Byte>, i: nat, j: nat)
    requires Sofar(blk0, ip0, blk1, ip1, n, off, src, i) && i < j <= |src| && off + i <= ip1[n].size
    requires InodesOk(ip) && |ip| == |ip1| && ip[n].typ == ip1[n].typ
    requires Written(blk1, ip1, blk, ip, n, off + i, src[i..j])
    ensures Sofar(blk0, ip0, blk, ip, n, off, src, j)
  {
    assert Parts(0);
    assert |Contents(blk, ip[n])| >= off + j;
    if i > 0 {
      WrittenMore(blk0, ip0, blk1, ip1, blk, ip, n, off, src, i, j);
    } else {
      assert src[i..j] == src[..j];
    }
  }

  lemma TypKept(sb: Superblock, blk0: Blocks, ip0: seq<Inode>, blk: Blocks, ip: seq<Inode>, n: nat, off: nat,
                src: seq<Byte>, tot: nat)
    requires WriteStage(sb, blk0, ip0, blk, ip, n, off, src, tot)
    ensures ip[n].typ == ip0[n].typ
  {
    assert Parts(0);
  }

  lemma ContentsStage(blk0: Blocks, ip0: seq<Inode>, blk: Blocks, ip: seq<Inode>, n: nat, off: nat, src: seq<Byte>)
    requires InodesOk(ip0) && InodesOk(ip) && |ip| == |ip0| && n < |ip0| && off <= ip0[n].size
    requires BytesStage(blk0, ip0, blk, ip, n, off, src, |src|)
    requires forall m | 0 <= m < |ip| && m != n :: ip[m] == ip0[m]
    requires ip[n].size == if off + |src| <= ip0[n].size then ip0[n].size else off + |src|
    ensures Written(blk0, ip0, blk, ip, n, off, src)
  {
    assert Parts(0);
    var s0, s1 := Contents(blk0, ip0[n]), Contents(blk, ip[n]);
    var want := WriteAt(s0, off, src);
    forall p | 0 <= p < |s1| ensures s1[p] == want[p] {
      assert s1[p] == RawByte(blk, ip[n], p);
    }
    forall m | 0 <= m < |ip| && m != n ensures Contents(blk, ip[m]) == Contents(blk0, ip0[m]) {
      forall p | 0 <= p < ip[m].size ensures Contents(blk, ip[m])[p] == Contents(blk0, ip0[m])[p] {
        assert RawByte(blk, ip[m], p) == RawByte(blk0, ip0[m], p);
      }
    }
  }

  /** A write that ends within the file leaves every inode as it was, so no iupdate is due. */
  lemma WriteWithin(sb: Superblock, blk0: Blocks, ip0: seq<Inode>, blk: Blocks, ip: seq<Inode>, owner: Owner,
                    n: nat, off: nat, src: seq<Byte>)
    requires WriteStage(sb, blk0, ip0, blk, ip, n, off, src, |src|) && Owned(sb, blk, ip, owner, {})
    requires |ip0| == sb.ninodes && Synced(sb, blk0, ip0) && forall m | 0 <= m < |ip0| :: Dense(blk0, ip0[m])
    requires off + |src| <= ip0[n].size
    ensures Sound(sb, blk, ip, owner) && Synced(sb, blk, ip) && Written(blk0, ip0, blk, ip, n, off, src)
  {
    assert Parts(0);
    ContentsStage(blk0, ip0, blk, ip, n, off, src);
    forall m | 0 <= m < |ip| ensures Dense(blk, ip[m]) && DiskInode(sb, blk, m) == ip[m] {
      assert DiskInode(sb, blk0, m) == ip0[m];
      forall bn | 0 <= bn < MAXFILE && bn * BSIZE < ip[m].size ensures Ref(blk, ip[m], SlotOf(bn)) != 0 {
        assert Ref(blk0, ip0[m], SlotOf(bn)) != 0;
      }
    }
  }

  function SetSize(ip: seq<Inode>, n: nat, size: Uint): (r: seq<Inode>)
    requires n < |ip|
  {
    ip[n := ip[n].(size := size)]
  }

  /** The size has no part in block ownership or in the bytes of a block. */
  lemma SizeFrame(sb: Superblock, blk: Blocks, ip: seq<Inode>, owner: Owner, n: nat, size: Uint)
    requires Owned(sb, blk, ip, owner, {}) && n < |ip| && size <= MAXFILE * BSIZE
    ensures Owned(sb, blk, SetSize(ip, n, size), owner, {}) && SameBytes(blk, ip, blk, SetSize(ip, n, size))
    ensures forall m, k | 0 <= m < |ip| && 0 <= k < SLOTS :: Ref(blk, SetSize(ip, n, size)[m], k) == Ref(blk, ip[m], k)
  {
    assert Parts(0);
    var ip' := SetSize(ip, n, size);
    assert forall m, k | 0 <= m < |ip| && 0 <= k < SLOTS :: Ref(blk, ip'[m], k) == Ref(blk, ip[m], k);
    assert OwnersReal(sb, blk, ip', owner) by {
      forall b | b in owner ensures Ref(blk, ip'[owner[b].0], owner[b].1) == b {
        assert Ref(blk, ip[owner[b].0], owner[b].1) == b;
      }
    }
    forall m, p | 0 <= m < |ip| && 0 <= p < MAXFILE * BSIZE ensures RawByte(blk, ip'[m], p) == RawByte(blk, ip[m], p) {
      assert Ref(blk, ip'[m], SlotOf(p / BSIZE)) == Ref(blk, ip[m], SlotOf(p / BSIZE));
    }
  }

  /** The new size and iupdate change no pointer and no byte. */
  lemma GrowFrame(sb: Superblock, blk: Blocks, ip: seq<Inode>, owner: Owner, n: nat, size: Uint,
                  ip2: seq<Inode>, blk2: Blocks)
    requires Owned(sb, blk, ip, owner, {}) && n < |ip| == sb.ninodes && size <= MAXFILE * BSIZE
    requires ip2 == SetSize(ip, n, size) && InodeOk(ip2[n]) && blk2 == PutInode(sb, blk, n, ip2[n])
    ensures Owned(sb, blk2, ip2, owner, {}) && SameBytes(blk, ip, blk2, ip2)
    ensures forall m, k | 0 <= m < |ip| && 0 <= k < SLOTS :: Ref(blk2, ip2[m], k) == Ref(blk, ip[m], k)
  {
    assert Parts(0);
    SizeFrame(sb, blk, ip, owner, n, size);
    InodeWriteOwned(sb, blk, ip2, owner, IBlock(sb, n), blk2[IBlock(sb, n)]);
    forall m, p | 0 <= m < |ip| && 0 <= p < MAXFILE * BSIZE ensures RawByte(blk2, ip2[m], p) == RawByte(blk, ip[m], p) {
      assert RawByte(blk2, ip2[m], p) == RawByte(blk, ip2[m], p);
    }
  }

  lemma GrowUse(sb: Superblock, blk: Blocks, ip: seq<Inode>, owner: Owner, n: nat, size: Uint,
                ip2: seq<Inode>, blk2: Blocks)
    requires Owned(sb, blk, ip, owner, {}) && n < |ip| == sb.ninodes && size <= MAXFILE * BSIZE
    requires ip2 == SetSize(ip, n, size) && InodeOk(ip2[n]) && blk2 == PutInode(sb, blk, n, ip2[n])
    ensures DiskOk(sb, blk2) && SameUse(sb, blk, ip[n], blk2, ip2[n])
  {
    GrowFrame(sb, blk, ip, owner, n, size, ip2, blk2);
    assert Parts(0);
  }

  lemma GrowDense(blk0: Blocks, ip0: seq<Inode>, blk: Blocks, ip: seq<Inode>, blk2: Blocks, ip2: seq<Inode>, n: nat,
                  end: nat)
    requires InodesOk(ip0) && InodesOk(ip) && InodesOk(ip2) && |ip0| == |ip| == |ip2| && n < |ip|
    requires MappedStage(blk0, ip0, blk, ip, n, end) && forall m | 0 <= m < |ip0| :: Dense(blk0, ip0[m])
    requires ip2[n].size == end && forall m | 0 <= m < |ip| && m != n :: ip2[m].size == ip0[m].size
    requires forall m, k | 0 <= m < |ip| && 0 <= k < SLOTS :: Ref(blk2, ip2[m], k) == Ref(blk, ip[m], k)
    ensures forall m | 0 <= m < |ip2| :: Dense(blk2, ip2[m])
  {
    assert Parts(0);
    forall m, bn | 0 <= m < |ip| && 0 <= bn < MAXFILE && bn * BSIZE < ip2[m].size
      ensures Ref(blk2, ip2[m], SlotOf(bn)) != 0
    {
      assert Ref(blk2, ip2[m], SlotOf(bn)) == Ref(blk, ip[m], SlotOf(bn));
      if m != n {
        assert Dense(blk0, ip0[m]) && Ref(blk0, ip0[m], SlotOf(bn)) != 0;
      }
    }
  }

  /** A write that goes past the end is completed by the new size and iupdate. */
  lemma WriteBeyond(sb: Superblock, blk0: Blocks, ip0: seq<Inode>, blk: Blocks, ip: seq<Inode>, owner: Owner,
                    n: nat, off: nat, src: seq<Byte>, ip2: seq<Inode>, blk2: Blocks)
    requires WriteStage(sb, blk0, ip0, blk, ip, n, off, src, |src|) && Owned(sb, blk, ip, owner, {})
    requires |ip0| == sb.ninodes && Synced(sb, blk0, ip0) && forall m | 0 <= m < |ip0| :: Dense(blk0, ip0[m])
    requires off <= ip0[n].size < off + |src| <= MAXFILE * BSIZE
    requires ip2 == SetSize(ip, n, off + |src|) && blk2 == PutInode(sb, blk, n, ip2[n])
    ensures Sound(sb, blk2, ip2, owner) && Synced(sb, blk2, ip2) && Written(blk0, ip0, blk2, ip2, n, off, src)
    ensures SameUse(sb, blk, ip[n], blk2, ip2[n])
  {
    assert Parts(0);
    GrowFrame(sb, blk, ip, owner, n, off + |src|, ip2, blk2);
    GrowUse(sb, blk, ip, owner, n, off + |src|, ip2, blk2);
    GrowDense(blk0, ip0, blk, ip, blk2, ip2, n, off + |src|);
    assert BytesStage(blk0, ip0, blk2, ip2, n, off, src, |src|);
    ContentsStage(blk0, ip0, blk2, ip2, n, off, src);
    forall m | 0 <= m < |ip| ensures DiskInode(sb, blk2, m) == ip2[m] {
      PutInodeReads(sb, blk, n, ip2[n], m);
      assert DiskInode(sb, blk0, m) == ip0[m];
    }
  }

  /** At the start of the loop nothing has changed, and everything below off is mapped. */
  lemma WriteStart(sb: Superblock, blk: Blocks, ip: seq<Inode>, n: nat, off: nat, src: seq<Byte>)
    requires DiskOk(sb, blk) && InodesOk(ip) && n < |ip| && Dense(blk, ip[n]) && off <= ip[n].size
    ensures WriteStage(sb, blk, ip, blk, ip, n, off, src, 0)
  {
    assert Parts(0);
  }

  /** At the end of the loop every file block of the write is mapped, so there were blocks enough, and no others are
      gone. */
  lemma WriteMapped(sb: Superblock, blk0: Blocks, ip0: seq<Inode>, blk: Blocks, ip: seq<Inode>, n: nat, off: nat,
                    src: seq<Byte>, lo: nat, hi: nat)
    requires WriteStage(sb, blk0, ip0, blk, ip, n, off, src, |src|) && off + |src| <= MAXFILE * BSIZE
    requires lo == off / BSIZE && hi == EndBlock(off, |src|) && SpentOver(sb, blk0, ip0[n], blk, ip[n], lo, hi)
    ensures !Short(sb, blk0, ip0[n], lo, hi)
    ensures FreeBlocks(sb, blk) == FreeBlocks(sb, blk0) - Missing(blk0, ip0[n], lo, hi)
  {
    forall bn | lo <= bn < hi ensures Ref(blk, ip[n], SlotOf(bn)) != 0 {
      assert Parts(0);
      BlockBefore(off, |src|, bn);
    }
    OverDone(sb, blk0, ip0[n], blk, ip[n], lo, hi);
  }

  lemma BlockBefore(off: nat, n: nat, bn: nat)
    requires off / BSIZE <= bn < EndBlock(off, n)
    ensures bn * BSIZE < off + n
  {}

  /** A write within the size needs no new block. */
  lemma WithinNeeds(blk: Blocks, ino: Inode, off: nat, n: nat)
    requires InodeOk(ino) && Dense(blk, ino) && off + n <= ino.size
    ensures Needed(blk, ino, off, n) == 0
  {
    forall bn | off / BSIZE <= bn < EndBlock(off, n) ensures Ref(blk, ino, SlotOf(bn)) != 0 {
      BlockBefore(off, n, bn);
    }
    NoneMissing(blk, ino, off / BSIZE, EndBlock(off, n));
  }

  /** How many of n bytes at off filewrite gets written, disk space apart: all if they fit in a file, else the whole
      pieces that do. */
  function Accepted(off: nat, n: nat): (m: nat)
    ensures m <= n && (off <= MAXFILE * BSIZE ==> off + m <= MAXFILE * BSIZE)
  {
    if off + n <= MAXFILE * BSIZE then n
    else if off <= MAXFILE * BSIZE then (MAXFILE * BSIZE - off) / CHUNK * CHUNK
    else 0
  }

  /** The end of the piece that begins with byte i. */
  function PieceEnd(i: nat, n: nat): (j: nat)
    requires i < n
  {
    if n - i > CHUNK then i + CHUNK else n
  }

  /** Byte i of n is where a piece begins, or the end. */
  predicate Whole(i: nat, n: nat) {
    i == n || i % CHUNK == 0
  }

  /** A piece is accepted if it fits in a file; the first that does not is where the accepted bytes end. */
  lemma PieceAccepted(off: nat, n: nat, i: nat)
    requires i < n && Whole(i, n) && off + i <= MAXFILE * BSIZE
    ensures Whole(PieceEnd(i, n), n)
    ensures off + PieceEnd(i, n) <= MAXFILE * BSIZE <==> PieceEnd(i, n) <= Accepted(off, n)
    ensures off + PieceEnd(i, n) > MAXFILE * BSIZE ==> i == Accepted(off, n)
  {}

  /** Once a file has m bytes at off, there were blocks enough for them. */
  lemma PiecesDone(sb: Superblock, blk0: Blocks, ino0: Inode, blk: Blocks, ino: Inode, off: nat, m: nat)
    requires DiskOk(sb, blk0) && DiskOk(sb, blk) && InodeOk(ino0) && InodeOk(ino) && Dense(blk, ino)
    requires off + m <= ino.size && SpentOver(sb, blk0, ino0, blk, ino, off / BSIZE, EndBlock(off, m))
    ensures FreeBlocks(sb, blk0) >= Needed(blk0, ino0, off, m)
  {
    forall bn | off / BSIZE <= bn < EndBlock(off, m) ensures Ref(blk, ino, SlotOf(bn)) != 0 {
      BlockBefore(off, m, bn);
    }
    OverDone(sb, blk0, ino0, blk, ino, off / BSIZE, EndBlock(off, m));
    ShortNeeds(sb, blk0, ino0, off, m);
  }

  /** filewrite has come to byte i, where a piece begins or all is done: so much is written, and no blocks are gone but
      those that were missing. */
  ghost predicate Progress(sb: Superblock, blk0: Blocks, ip0: seq<Inode>, blk: Blocks, ip: seq<Inode>, n: nat, off: nat,
                           src: seq<Byte>, i: nat)
  {
    && i <= |src| && Sofar(blk0, ip0, blk, ip, n, off, src, i) && n < |ip0|
    && forall x: nat | Parts(x) ::
      && Whole(i, |src|) && (off <= ip0[n].size ==> i <= Accepted(off, |src|))
      && DiskOk(sb, blk0) && DiskOk(sb, blk)
      && SpentOver(sb, blk0, ip0[n], blk, ip[n], off / BSIZE, EndBlock(off, Accepted(off, |src|)))
  }

  /** Fewer blocks are free than the accepted bytes need. */
  ghost predicate TooFewFor(sb: Superblock, blk: Blocks, ino: Inode, off: nat, n: nat)
    requires DiskOk(sb, blk) && InodeOk(ino) && off <= ino.size
  {
    forall x: nat | Parts(x) :: FreeBlocks(sb, blk) < Needed(blk, ino, off, Accepted(off, n))
  }

  lemma TooFewNeeds(sb: Superblock, blk: Blocks, ino: Inode, off: nat, n: nat)
    requires DiskOk(sb, blk) && InodeOk(ino) && off <= ino.size
    ensures TooFewFor(sb, blk, ino, off, n) <==> FreeBlocks(sb, blk) < Needed(blk, ino, off, Accepted(off, n))
  {
    assert Parts(0);
  }

  lemma ProgressNone(sb: Superblock, blk: Blocks, ip: seq<Inode>, n: nat, off: nat, src: seq<Byte>)
    requires DiskOk(sb, blk) && InodesOk(ip) && n < |ip|
    ensures Progress(sb, blk, ip, blk, ip, n, off, src, 0)
  {
    SofarNone(blk, ip, n, off, src);
  }

  /** One piece more. */
  lemma ProgressMore(sb: Superblock, blk0: Blocks, ip0: seq<Inode>, blk1: Blocks, ip1: seq<Inode>, blk: Blocks,
                     ip: seq<Inode>, n: nat, off: nat, src: seq<Byte>, i: nat, j: nat, part: seq<Byte>, at: nat)
    requires Progress(sb, blk0, ip0, blk1, ip1, n, off, src, i) && i < |src| && j == PieceEnd(i, |src|)
    requires part == src[i..j] && at == off + i && at <= ip1[n].size && at + |part| <= MAXFILE * BSIZE
    requires InodesOk(ip) && |ip| == |ip1| && ip[n].typ == ip1[n].typ && DiskOk(sb, blk) && DiskOk(sb, blk1)
    requires Written(blk1, ip1, blk, ip, n, at, part)
    requires SpentOver(sb, blk1, ip1[n], blk, ip[n], at / BSIZE, EndBlock(at, |part|))
    ensures Progress(sb, blk0, ip0, blk, ip, n, off, src, j) && off <= ip0[n].size
  {
    assert Parts(0);
    SofarMore(blk0, ip0, blk1, ip1, blk, ip, n, off, src, i, j);
    PieceAccepted(off, |src|, i);
    PieceSpent(sb, blk0, ip0[n], blk1, ip1[n], blk, ip[n], off, i, j, Accepted(off, |src|));
  }

  lemma SamePart(sb: Superblock, blk0: Blocks, ip0: seq<Inode>, blk: Blocks, ip: seq<Inode>, n: nat, off: nat,
                 src: seq<Byte>, i: nat, j: nat)
    requires Progress(sb, blk0, ip0, blk, ip, n, off, src, i) && i < |src| && j == PieceEnd(i, |src|)
    ensures i < j <= |src| && j - i <= CHUNK && ip[n].typ == ip0[n].typ && n < |ip|
  {}

  /** A piece that fits but finds too few blocks. */
  lemma ProgressShort(sb: Superblock, blk0: Blocks, ip0: seq<Inode>, blk: Blocks, ip: seq<Inode>, n: nat, off: nat,
                      src: seq<Byte>, i: nat, j: nat, part: seq<Byte>, at: nat)
    requires Progress(sb, blk0, ip0, blk, ip, n, off, src, i) && i < |src| && j == PieceEnd(i, |src|)
    requires part == src[i..j] && at == off + i && at <= ip[n].size && at + |part| <= MAXFILE * BSIZE
    requires DiskOk(sb, blk) && FreeBlocks(sb, blk) < Needed(blk, ip[n], at, |part|)
    ensures off <= ip0[n].size && DiskOk(sb, blk0) && TooFewFor(sb, blk0, ip0[n], off, |src|)
  {
    assert Parts(0);
    PieceAccepted(off, |src|, i);
    PieceShort(sb, blk0, ip0[n], blk, ip[n], off, i, j, Accepted(off, |src|));
  }

  /** When no piece is left that fits, there were blocks enough for all that do. */
  lemma ProgressEnds(sb: Superblock, blk0: Blocks, ip0: seq<Inode>, blk: Blocks, ip: seq<Inode>, n: nat, off: nat,
                     src: seq<Byte>, i: nat)
    requires Progress(sb, blk0, ip0, blk, ip, n, off, src, i) && Dense(blk, ip[n])
    requires i == |src| || off + i > ip[n].size || off + PieceEnd(i, |src|) > MAXFILE * BSIZE
    ensures DiskOk(sb, blk0)
    ensures off > ip0[n].size ==> i == 0
    ensures off <= ip0[n].size ==> i == Accepted(off, |src|) && !TooFewFor(sb, blk0, ip0[n], off, |src|)
  {
    assert Parts(0);
    if off <= ip0[n].size {
      if i < |src| { PieceAccepted(off, |src|, i); }
      PiecesDone(sb, blk0, ip0[n], blk, ip[n], off, i);
    }
  }

  /** off + n wraps around exactly if the sum needs more than 32 bits. */
  lemma UintSum(off: Uint, n: nat)
    requires n < WORD_LIMIT
    ensures (off + n) % WORD_LIMIT < off <==> off + n >= WORD_LIMIT
    ensures off + n < WORD_LIMIT ==> (off + n) % WORD_LIMIT == off + n
  {}

  lemma SliceMore(s: seq<Byte>, a: nat, b: nat, c: nat)
    requires a <= b <= c <= |s|
    ensures s[a..b] + s[b..c] == s[a..c]
  {}

  /** A byte of the file lies in a mapped block. */
  lemma DenseAt(blk: Blocks, ino: Inode, at: nat)
    requires InodeOk(ino) && Dense(blk, ino) && at < ino.size
    ensures at / BSIZE < MAXFILE && Ref(blk, ino, SlotOf(at / BSIZE)) != 0
  {
    BlockOf(at);
  }

  /** min(n - tot, BSIZE - off%BSIZE) */
  function Chunk(left: nat, o: nat): (m: nat)
    requires o < BSIZE
    ensures m <= left && o + m <= BSIZE && (left > 0 ==> m > 0)
  {
    if left < BSIZE - o then left else BSIZE - o
  }

  lemma BlockOf(at: nat)
    requires at < MAXFILE * BSIZE
    ensures at / BSIZE < MAXFILE && at == at / BSIZE * BSIZE + at % BSIZE && at % BSIZE < BSIZE
  {}

  /** Part of a mapped block is the same part of the file. */
  lemma ChunkRead(sb: Superblock, blk: Blocks, ip: seq<Inode>, owner: Owner, n: nat, bn: nat, o: nat, c: nat)
    requires Owned(sb, blk, ip, owner, {}) && n < |ip| && bn < MAXFILE && o < BSIZE && o + c <= BSIZE
    requires Ref(blk, ip[n], SlotOf(bn)) != 0 && bn * BSIZE + o + c <= ip[n].size
    ensures Ref(blk, ip[n], SlotOf(bn)) < sb.size
    ensures blk[Ref(blk, ip[n], SlotOf(bn))][o..o + c] == Contents(blk, ip[n])[bn * BSIZE + o..bn * BSIZE + o + c]
  {
    assert Parts(0);
    var a, s := Ref(blk, ip[n], SlotOf(bn)), Contents(blk, ip[n]);
    assert a in owner;
    forall q | o <= q < o + c ensures blk[a][q] == s[bn * BSIZE + q] {
      assert (bn * BSIZE + q) / BSIZE == bn && (bn * BSIZE + q) % BSIZE == q;
    }
  }

  /** Part of the way through itrunc's first loop: the first i direct blocks are given up. */
  ghost predicate DirectFreed(sb: Superblock, blk0: Blocks, ip0: seq<Inode>, owner0: Owner,
                              blk: Blocks, ip: seq<Inode>, owner: Owner, n: nat, i: nat)
  {
    && SameData(sb, blk0, blk) && InodesOk(ip0) && InodesOk(ip) && |ip| == |ip0| && n < |ip| && i <= NDIRECT
    && (forall m | 0 <= m < |ip| && m != n :: ip[m] == ip0[m])
    && ip[n] == ip0[n].(addrs := ip[n].addrs)
    && (forall k | 0 <= k < i :: ip[n].addrs[k] == 0)
    && (forall b | b in owner :: b in owner0 && owner[b] == owner0[b])
    && (forall b | b in owner0 && owner0[b].0 != n :: b in owner)
  }

  lemma DirectFreedStep(sb: Superblock, blk0: Blocks, ip0: seq<Inode>, owner0: Owner,
                        blk: Blocks, ip: seq<Inode>, owner: Owner, n: nat, i: nat, b: nat, blk': Blocks)
    requires DirectFreed(sb, blk0, ip0, owner0, blk, ip, owner, n, i) && i < NDIRECT
    requires b in owner && owner[b].0 == n && SameData(sb, blk, blk')
    ensures DirectFreed(sb, blk0, ip0, owner0, blk', SetAddr(ip, n, i, 0), owner - {b}, n, i + 1)
  {}

  /** With the first loop done, what remains of the other inodes' blocks is all of them. */
  lemma OthersSame(owner0: Owner, owner: Owner, n: nat)
    requires forall b | b in owner :: b in owner0 && owner[b] == owner0[b]
    requires forall b | b in owner0 && owner0[b].0 != n :: b in owner
    ensures Others(owner, n) == Others(owner0, n)
  {}

  lemma ClearedAddrs(addrs: seq<Uint>)
    requires |addrs| == NDIRECT + 1 && forall k | 0 <= k < NDIRECT :: addrs[k] == 0
    ensures addrs[INDIRECT := 0] == seq(NDIRECT + 1, _ => 0)
  {}

  /** The inode after itrunc. */
  function Truncated(ip: seq<Inode>, n: nat): (r: seq<Inode>)
    requires n < |ip|
  {
    SetSize(NoAddrs(ip, n), n, 0)
  }

  /** The inodes other than n have the same pointers in both states, and their data blocks the same bytes. */
  ghost predicate OthersKept(sb: Superblock, blk0: Blocks, ip0: seq<Inode>, blk: Blocks, ip: seq<Inode>, n: nat) {
    && InodesOk(ip0) && InodesOk(ip) && |ip| == |ip0| && |blk| == |blk0|
    && (forall m | 0 <= m < |ip| && m != n :: ip[m] == ip0[m])
    && (forall m, k | 0 <= m < |ip| && m != n && 0 <= k < SLOTS :: Ref(blk, ip[m], k) == Ref(blk0, ip0[m], k))
    && (forall m, p | 0 <= m < |ip| && m != n && 0 <= p < MAXFILE * BSIZE ::
          RawByte(blk, ip[m], p) == RawByte(blk0, ip0[m], p))
  }

  lemma OthersContents(sb: Superblock, blk0: Blocks, ip0: seq<Inode>, blk: Blocks, ip: seq<Inode>, n: nat, m: nat)
    requires OthersKept(sb, blk0, ip0, blk, ip, n) && m < |ip| && m != n
    ensures Contents(blk, ip[m]) == Contents(blk0, ip0[m])
    ensures Dense(blk0, ip0[m]) ==> Dense(blk, ip[m])
  {
    forall p | 0 <= p < ip[m].size ensures Contents(blk, ip[m])[p] == Contents(blk0, ip0[m])[p] {
      assert RawByte(blk, ip[m], p) == RawByte(blk0, ip0[m], p);
    }
    forall bn | 0 <= bn < MAXFILE && bn * BSIZE < ip[m].size
      ensures Ref(blk, ip[m], SlotOf(bn)) == Ref(blk0, ip0[m], SlotOf(bn)) {}
  }

  /** Freeing inode n's blocks keeps the others. */
  lemma FreedKeepsOthers(sb: Superblock, blk0: Blocks, ip0: seq<Inode>, owner0: Owner, blk: Blocks, ip: seq<Inode>,
                         n: nat)
    requires Owned(sb, blk0, ip0, owner0, {}) && SameData(sb, blk0, blk) && InodesOk(ip) && |ip| == |ip0|
    requires forall m | 0 <= m < |ip| && m != n :: ip[m] == ip0[m]
    ensures OthersKept(sb, blk0, ip0, blk, ip, n)
  {
    assert Parts(0);
    SameDataRefs(sb, blk0, blk, ip0, owner0);
    assert forall m, k | 0 <= m < |ip| && m != n && 0 <= k < SLOTS :: Ref(blk, ip[m], k) == Ref(blk, ip0[m], k);
    forall m, p | 0 <= m < |ip| && m != n && 0 <= p < MAXFILE * BSIZE
      ensures RawByte(blk, ip[m], p) == RawByte(blk0, ip0[m], p)
    {
      assert RawByte(blk, ip0[m], p) == RawByte(blk0, ip0[m], p);
    }
  }

  /** itrunc's size = 0 and iupdate complete a consistent state in which the other files are untouched. */
  lemma TruncFinish(sb: Superblock, blk0: Blocks, ip0: seq<Inode>, blk: Blocks, ip: seq<Inode>, owner: Owner, n: nat,
                    ip2: seq<Inode>, blk2: Blocks)
    requires Owned(sb, blk, ip, owner, {}) && n < |ip| == sb.ninodes
    requires OthersKept(sb, blk0, ip0, blk, ip, n) && SameData(sb, blk0, blk)
    requires Synced(sb, blk0, ip0) && forall m | 0 <= m < |ip0| :: Dense(blk0, ip0[m])
    requires ip2 == SetSize(ip, n, 0) && InodeOk(ip2[n]) && blk2 == PutInode(sb, blk, n, ip2[n])
    ensures Sound(sb, blk2, ip2, owner) && Synced(sb, blk2, ip2)
    ensures forall m | 0 <= m < |ip| && m != n :: ip2[m] == ip0[m] && Contents(blk2, ip2[m]) == Contents(blk0, ip0[m])
  {
    assert Parts(0);
    GrowFrame(sb, blk, ip, owner, n, 0, ip2, blk2);
    assert OthersKept(sb, blk0, ip0, blk2, ip2, n);
    forall m | 0 <= m < |ip| && m != n ensures Contents(blk2, ip2[m]) == Contents(blk0, ip0[m]) && Dense(blk2, ip2[m]) {
      OthersContents(sb, blk0, ip0, blk2, ip2, n, m);
    }
    forall m | 0 <= m < |ip| ensures DiskInode(sb, blk2, m) == ip2[m] {
      PutInodeReads(sb, blk, n, ip2[n], m);
      assert DiskInode(sb, blk0, m) == ip0[m];
    }
  }

  /** Giving up inode n's blocks marks exactly those free. */
  lemma FreedExactly(sb: Superblock, blk0: Blocks, ip0: seq<Inode>, owner0: Owner, blk: Blocks, ip: seq<Inode>, n: nat,
                     b: nat)
    requires Owned(sb, blk0, ip0, owner0, {}) && Owned(sb, blk, ip, Others(owner0, n), {}) && b < sb.size
    ensures Used(sb, blk, b) <==> Used(sb, blk0, b) && !(b in owner0 && owner0[b].0 == n)
  {
    assert Parts(0);
    assert b in owner0 ==> sb.datastart <= b;
  }

  // ---------- which blocks writei and itrunc log ----------

  /** A block that writei changes for file block bn: the data block, and if there was none before, the block of the free
      map that marks it. */
  ghost predicate CostAt(sb: Superblock, blk0: Blocks, ino0: Inode, blk: Blocks, ino: Inode, bn: nat, x: nat)
    requires InodeOk(ino0) && InodeOk(ino) && bn < MAXFILE
  {
    var b := Ref(blk, ino, SlotOf(bn));
    b != 0 && (x == b || (Ref(blk0, ino0, SlotOf(bn)) == 0 && x == BBlock(sb, b)))
  }

  /** A block that writei changes for the bytes from off to end, the inode block apart: one of those, or the indirect
      block or the one that marks it. */
  ghost predicate WriteCost(sb: Superblock, blk0: Blocks, ino0: Inode, blk: Blocks, ino: Inode, off: nat, end: nat,
                            x: nat)
    requires InodeOk(ino0) && InodeOk(ino)
  {
    var a := Ref(blk, ino, INDIRECT);
    || (a != 0 && (x == a || x == BBlock(sb, a)))
    || exists bn: nat :: off / BSIZE <= bn < MAXFILE && bn * BSIZE < end && CostAt(sb, blk0, ino0, blk, ino, bn, x)
  }

  /** All blocks that come into w after w0 are such blocks. */
  ghost predicate WriteCharged(sb: Superblock, w0: set<nat>, w: set<nat>, blk0: Blocks, ino0: Inode, blk: Blocks,
                               ino: Inode, off: nat, end: nat)
    requires InodeOk(ino0) && InodeOk(ino)
  {
    forall y: nat | Parts(y) ::
      forall x: nat | x in w && x !in w0 :: WriteCost(sb, blk0, ino0, blk, ino, off, end, x)
  }

  /** No pointer that is set changes. */
  ghost predicate RefsKept(blk: Blocks, ino: Inode, blk': Blocks, ino': Inode)
    requires InodeOk(ino) && InodeOk(ino')
  {
    forall k | 0 <= k < SLOTS && Ref(blk, ino, k) != 0 :: Ref(blk', ino', k) == Ref(blk, ino, k)
  }

  lemma ChargeKept(sb: Superblock, w0: set<nat>, w: set<nat>, blk0: Blocks, ino0: Inode, blk: Blocks, ino: Inode,
                   blk': Blocks, ino': Inode, off: nat, end: nat)
    requires InodeOk(ino0) && InodeOk(ino) && InodeOk(ino') && RefsKept(blk, ino, blk', ino')
    requires WriteCharged(sb, w0, w, blk0, ino0, blk, ino, off, end)
    ensures WriteCharged(sb, w0, w, blk0, ino0, blk', ino', off, end)
  {
    assert Parts(0);
    forall x: nat | x in w && x !in w0 ensures WriteCost(sb, blk0, ino0, blk', ino', off, end, x) {
      assert WriteCost(sb, blk0, ino0, blk, ino, off, end, x);
      var a := Ref(blk, ino, INDIRECT);
      if !(a != 0 && (x == a || x == BBlock(sb, a))) {
        var bn: nat :|
          off / BSIZE <= bn < MAXFILE && bn * BSIZE < end && CostAt(sb, blk0, ino0, blk, ino, bn, x);
        assert CostAt(sb, blk0, ino0, blk', ino', bn, x);
      }
    }
  }

  /** bmap for a file block that had no block before. */
  lemma ChargeMap(sb: Superblock, w0: set<nat>, w: set<nat>, w': set<nat>, blk0: Blocks, ino0: Inode, blk: Blocks,
                  ino: Inode, off: nat, end: nat, bn: nat)
    requires InodeOk(ino0) && InodeOk(ino) && off / BSIZE <= bn < MAXFILE && bn * BSIZE < end
    requires WriteCharged(sb, w0, w, blk0, ino0, blk, ino, off, end) && MapCharged(sb, w, w', blk, ino, bn)
    requires Ref(blk0, ino0, SlotOf(bn)) == 0
    ensures WriteCharged(sb, w0, w', blk0, ino0, blk, ino, off, end)
  {
    assert Parts(0);
    forall x: nat | x in w' && x !in w0 ensures WriteCost(sb, blk0, ino0, blk, ino, off, end, x) {
      if x !in w {
        assert MapCost(sb, blk, ino, bn, x);
        assert x == Ref(blk, ino, SlotOf(bn)) != 0 ==> CostAt(sb, blk0, ino0, blk, ino, bn, x);
        assert CostAt(sb, blk0, ino0, blk, ino, bn, x) ||
               (Ref(blk, ino, INDIRECT) != 0 &&
                 (x == Ref(blk, ino, INDIRECT) || x == BBlock(sb, Ref(blk, ino, INDIRECT))));
      }
    }
  }

  /** bmap in the loop of writei. */
  lemma ChargeBmap(sb: Superblock, w0: set<nat>, w: set<nat>, w': set<nat>, blk0: Blocks, ip0: seq<Inode>, blk: Blocks,
                   ip: seq<Inode>, blk': Blocks, ip': seq<Inode>, n: nat, off: nat, tot: nat, end: nat, bn: nat)
    requires InodesOk(ip0) && InodesOk(ip) && |ip| == |ip0| && n < |ip| && MappedStage(blk0, ip0, blk, ip, n, off + tot)
    requires Grown(sb, blk, ip, blk', ip', n)
    requires off / BSIZE <= bn < MAXFILE && bn * BSIZE < end
    requires WriteCharged(sb, w0, w, blk0, ip0[n], blk, ip[n], off, end)
    requires MapCharged(sb, w, w', blk', ip'[n], bn) && (Ref(blk, ip[n], SlotOf(bn)) != 0 ==> w' == w)
    ensures WriteCharged(sb, w0, w', blk0, ip0[n], blk', ip'[n], off, end)
  {
    assert RefsKept(blk, ip[n], blk', ip'[n]) by { assert Parts(0); }
    ChargeKept(sb, w0, w, blk0, ip0[n], blk, ip[n], blk', ip'[n], off, end);
    if Ref(blk, ip[n], SlotOf(bn)) == 0 {
      assert Ref(blk0, ip0[n], SlotOf(bn)) == 0 by { assert Parts(0); }
      ChargeMap(sb, w0, w, w', blk0, ip0[n], blk', ip'[n], off, end, bn);
    }
  }

  /** And the bytes in the data block. */
  lemma ChargeData(sb: Superblock, w0: set<nat>, w: set<nat>, blk0: Blocks, ino0: Inode, blk: Blocks, blk': Blocks,
                   ino: Inode, off: nat, end: nat, bn: nat)
    requires InodeOk(ino0) && InodeOk(ino) && off / BSIZE <= bn < MAXFILE && bn * BSIZE < end
    requires WriteCharged(sb, w0, w, blk0, ino0, blk, ino, off, end) && Ref(blk, ino, SlotOf(bn)) != 0
    requires forall k | 0 <= k < SLOTS :: Ref(blk', ino, k) == Ref(blk, ino, k)
    ensures WriteCharged(sb, w0, w + {Ref(blk, ino, SlotOf(bn))}, blk0, ino0, blk', ino, off, end)
  {
    ChargeKept(sb, w0, w, blk0, ino0, blk, ino, blk', ino, off, end);
    assert Parts(0);
    assert CostAt(sb, blk0, ino0, blk', ino, bn, Ref(blk, ino, SlotOf(bn)));
  }

  /** All blocks that come into w after w0 are inode blocks, blocks of the free map or data blocks. */
  ghost predicate AtHome(sb: Superblock, w0: set<nat>, w: set<nat>) {
    forall x: nat | x in w && x !in w0 :: sb.inodestart <= x < sb.size
  }

  lemma ChargedHome(sb: Superblock, w0: set<nat>, w: set<nat>, blk0: Blocks, ip0: seq<Inode>, blk: Blocks,
                    ip: seq<Inode>, owner: Owner, n: nat, off: nat, end: nat)
    requires Owned(sb, blk, ip, owner, {}) && InodesOk(ip0) && n < |ip| && n < |ip0|
    requires WriteCharged(sb, w0, w, blk0, ip0[n], blk, ip[n], off, end)
    ensures AtHome(sb, w0, w)
  {
    forall x: nat | x in w && x !in w0 ensures sb.inodestart <= x < sb.size {
      assert WriteCost(sb, blk0, ip0[n], blk, ip[n], off, end, x) by { assert Parts(0); }
      var a := Ref(blk, ip[n], INDIRECT);
      if a != 0 && (x == a || x == BBlock(sb, a)) {
        RefOwned(sb, blk, ip, owner, {}, n, INDIRECT);
      } else {
        var bn: nat :|
          off / BSIZE <= bn < MAXFILE && bn * BSIZE < end && CostAt(sb, blk0, ip0[n], blk, ip[n], bn, x);
        assert Ref(blk, ip[n], SlotOf(bn)) != 0;
        RefOwned(sb, blk, ip, owner, {}, n, SlotOf(bn));
      }
    }
  }

  lemma HomeCalls(sb: Superblock, w: BlockWrites)
    requires AtHome(sb, {}, Touched(w))
    ensures forall k | 0 <= k < |w| :: sb.inodestart <= w[k].0 < sb.size
  {
    forall k | 0 <= k < |w| ensures w[k].0 in Touched(w) {}
  }

  /** One more call, for an inode. */
  lemma HomeMore(sb: Superblock, w0: set<nat>, w: BlockWrites, w': BlockWrites, n: nat)
    requires AtHome(sb, w0, Touched(w)) && w <= w' && |w'| <= |w| + 1 && LayoutOk(sb) && n < sb.ninodes
    requires |w'| > |w| ==> w'[|w|].0 == IBlock(sb, n)
    ensures AtHome(sb, w0, Touched(w'))
  {
    if |w'| > |w| {
      assert w' == w + [(w'[|w|].0, w'[|w|].1)];
      TouchedMore(w, w'[|w|].0, w'[|w|].1);
    } else {
      assert w' == w;
    }
  }

  // ---------- a write of at most three blocks' worth of bytes ----------

  /** Block bn of the file, 0 if there is none. */
  ghost function At(blk: Blocks, ino: Inode, bn: nat): (b: nat)
    requires InodeOk(ino)
  {
    if bn < MAXFILE then Ref(blk, ino, SlotOf(bn)) else 0
  }

  /** The blocks that such a write may change, the inode block apart: the indirect block, four data blocks of which the
      first is there already, or three, and a block of the free map for each new one. */
  ghost function Bill(sb: Superblock, blk: Blocks, ino: Inode, off: nat): (s: set<nat>)
    requires InodeOk(ino)
    ensures |s| <= 9
  {
    var lo, a := off / BSIZE, Ref(blk, ino, INDIRECT);
    var d0, d1, d2, d3 := At(blk, ino, lo), At(blk, ino, lo + 1), At(blk, ino, lo + 2), At(blk, ino, lo + 3);
    var last := if off % BSIZE == 0 then BBlock(sb, d0) else d3;
    SizeOfNine(a, BBlock(sb, a), d0, d1, d2, last, BBlock(sb, d1), BBlock(sb, d2), BBlock(sb, d3));
    {a, BBlock(sb, a), d0, d1, d2, last, BBlock(sb, d1), BBlock(sb, d2), BBlock(sb, d3)}
  }

  /** The blocks changed for file block bn are on it. */
  lemma OnBill(sb: Superblock, blk0: Blocks, ino0: Inode, blk: Blocks, ino: Inode, off: nat, end: nat, bn: nat, x: nat)
    requires InodeOk(ino0) && InodeOk(ino) && Dense(blk0, ino0) && off <= ino0.size && off <= end <= off + 3 * BSIZE
    requires off / BSIZE <= bn < MAXFILE && bn * BSIZE < end && CostAt(sb, blk0, ino0, blk, ino, bn, x)
    ensures x in Bill(sb, blk, ino, off)
  {
    ChunkNumber(off, end, bn);
    assert bn == off / BSIZE && off % BSIZE != 0 ==> Ref(blk0, ino0, SlotOf(bn)) != 0;
  }

  /** At most nine blocks are changed by such a write before its iupdate. */
  lemma FewBlocks(sb: Superblock, w: set<nat>, blk0: Blocks, ino0: Inode, blk: Blocks, ino: Inode, off: nat, end: nat)
    requires InodeOk(ino0) && InodeOk(ino) && Dense(blk0, ino0) && off <= ino0.size && off <= end <= off + 3 * BSIZE
    requires WriteCharged(sb, {}, w, blk0, ino0, blk, ino, off, end)
    ensures |w| < MAXOPBLOCKS
  {
    forall x | x in w ensures x in Bill(sb, blk, ino, off) {
      assert WriteCost(sb, blk0, ino0, blk, ino, off, end, x) by { assert Parts(0); }
      var a := Ref(blk, ino, INDIRECT);
      if !(a != 0 && (x == a || x == BBlock(sb, a))) {
        var bn: nat :|
          off / BSIZE <= bn < MAXFILE && bn * BSIZE < end && CostAt(sb, blk0, ino0, blk, ino, bn, x);
        OnBill(sb, blk0, ino0, blk, ino, off, end, bn, x);
      }
    }
    SubsetSize(w, Bill(sb, blk, ino, off));
  }

  /** The bytes touch at most four blocks of the file, three if they start at the beginning of one. */
  lemma ChunkNumber(off: nat, end: nat, bn: nat)
    requires off / BSIZE <= bn && bn * BSIZE < end <= off + 3 * BSIZE
    ensures bn <= off / BSIZE + 3 && (off % BSIZE == 0 ==> bn <= off / BSIZE + 2)
    ensures bn == off / BSIZE && off % BSIZE != 0 ==> bn * BSIZE < off
  {}

  lemma SizeOfNine(a: nat, b: nat, c: nat, d: nat, e: nat, f: nat, g: nat, h: nat, i: nat)
    ensures |{a, b, c, d, e, f, g, h, i}| <= 9
  {}

  /** Every call is made with fewer than MAXOPBLOCKS blocks changed before it. */
  ghost predicate Frugal(w: BlockWrites) {
    forall k | 0 <= k < |w| :: |Touched(w[..k])| < MAXOPBLOCKS
  }

  /** One more call when that few blocks are changed. */
  lemma FrugalMore(w: BlockWrites, w': BlockWrites)
    requires |Touched(w)| < MAXOPBLOCKS && w <= w' && |w'| <= |w| + 1
    ensures Frugal(w')
  {
    forall k | 0 <= k < |w'| ensures |Touched(w'[..k])| < MAXOPBLOCKS {
      assert w'[..k] == w[..k];
      assert Touched(w[..k]) <= Touched(w);
      SubsetSize(Touched(w[..k]), Touched(w));
    }
  }

  /** So at most MAXOPBLOCKS blocks are changed in all. */
  lemma FrugalSize(w: BlockWrites)
    requires Frugal(w)
    ensures |Touched(w)| <= MAXOPBLOCKS
  {
    if w == [] {
      assert Touched(w) == {};
    } else {
      var front, last := w[..|w| - 1], w[|w| - 1];
      assert w == front + [(last.0, last.1)];
      TouchedMore(front, last.0, last.1);
    }
  }

  /** Such a write, with an iupdate at its end or none. */
  lemma WriteFrugal(sb: Superblock, w: BlockWrites, w': BlockWrites, blk0: Blocks, ino0: Inode, blk: Blocks, ino: Inode,
                    off: nat, end: nat)
    requires InodeOk(ino0) && InodeOk(ino) && Dense(blk0, ino0) && off <= ino0.size && off <= end <= off + 3 * BSIZE
    requires WriteCharged(sb, Touched([]), Touched(w), blk0, ino0, blk, ino, off, end) && w <= w' && |w'| <= |w| + 1
    ensures Frugal(w')
  {
    assert Touched([]) == {};
    FewBlocks(sb, Touched(w), blk0, ino0, blk, ino, off, end);
    FrugalMore(w, w');
  }

  // ---------- itrunc ----------

  /** The blocks of the free map. */
  function MapBlocks(sb: Superblock): (n: nat) {
    (sb.size + BPB - 1) / BPB
  }

  /** All blocks that come into w after w0 are blocks of the free map. */
  ghost predicate MapOnly(sb: Superblock, w0: set<nat>, w: set<nat>) {
    forall x: nat | x in w && x !in w0 :: sb.bmapstart <= x < sb.bmapstart + MapBlocks(sb)
  }

  lemma MapBlock(sb: Superblock, b: nat)
    requires b < sb.size
    ensures sb.bmapstart <= BBlock(sb, b) < sb.bmapstart + MapBlocks(sb)
  {}

  function Range(lo: nat, n: nat): (s: set<nat>)
    ensures |s| == n && forall x: nat :: x in s <==> lo <= x < lo + n
  {
    if n == 0 then {} else Range(lo, n - 1) + {lo + n - 1}
  }

  lemma TruncFrugal(sb: Superblock, w: BlockWrites, w': BlockWrites)
    requires MapOnly(sb, Touched([]), Touched(w)) && MapBlocks(sb) < MAXOPBLOCKS && w <= w' && |w'| <= |w| + 1
    ensures Frugal(w')
  {
    var all := Range(sb.bmapstart, MapBlocks(sb));
    assert Touched(w) <= all;
    SubsetSize(Touched(w), all);
    FrugalMore(w, w');
  }

  class Fs {
    const sb: Superblock
    var blk: Blocks
    var ip: seq<Inode>
    ghost var owner: Owner
    ghost var start: Blocks          // the block map when the present operation began
    var writes: BlockWrites          // its log_write calls

    ghost predicate Valid()
      reads this
    {
      Sound(sb, blk, ip, owner) && Synced(sb, blk, ip) && Logged()
    }

    /** The block map has changed by log_write calls alone. */
    ghost predicate Logged()
      reads this
    {
      forall x: nat | ByLog(x) :: blk == Redo(start, writes)
    }

    /** begin_op. */
    method BeginOp()
      modifies this`start, this`writes
      ensures Logged() && start == blk && writes == []
    {
      start, writes := blk, [];
    }

    /** bread, a change of the data, log_write and brelse. */
    method LogBlock(x: nat, v: Block)
      requires Logged() && x < |blk|
      modifies this`blk, this`writes
      ensures Logged() && blk == old(blk)[x := v] && writes == old(writes) + [(x, v)]
      ensures Touched(writes) == Touched(old(writes)) + {x}
    {
      assert ByLog(0);
      TouchedMore(writes, x, v);
      RedoMore(start, writes, x, v);
      blk := blk[x := v];
      writes := writes + [(x, v)];
    }

    /** A mounted file system. */
    constructor (sb: Superblock, blk: Blocks, ip: seq<Inode>, ghost owner: Owner)
      requires Sound(sb, blk, ip, owner) && Synced(sb, blk, ip)
      ensures Valid() && this.sb == sb && this.blk == blk && this.ip == ip && this.owner == owner
    {
      this.sb, this.blk, this.ip, this.owner := sb, blk, ip, owner;
      start, writes := blk, [];
    }

    /** balloc has found block c: its bit is set and its contents are zeroed. */
    method MarkBlock(c: nat, x: nat, bi: nat)
      requires DiskOk(sb, blk) && c < sb.size && !Used(sb, blk, c) && x == BBlock(sb, c) && bi == c % BPB
      requires Logged()
      modifies this`blk, this`writes
      ensures Logged() && blk == AllocBlock(sb, old(blk), c)
      ensures Touched(writes) == Touched(old(writes)) + {BBlock(sb, c), c}
    {
      SetBitFits(blk[x][bi / 8], bi % 8, 8);
      ByteMask();
      LogBlock(x, blk[x][bi / 8 := blk[x][bi / 8] + Mask(bi % 8)]);
      LogBlock(c, ZeroBlock());
    }

    /** One bitmap block of balloc, the one for the blocks from b on. */
    method BallocIn(b: nat) returns (r: Option<nat>)
      requires DiskOk(sb, blk) && b < sb.size && b % BPB == 0
      requires Logged()
      modifies this`blk, this`writes
      ensures Logged()
      ensures r.None? ==> writes == old(writes)
      ensures r.Some? ==> Touched(writes) == Touched(old(writes)) + {BBlock(sb, r.value), r.value}
      ensures r.None? ==> blk == old(blk) && forall c | b <= c < b + BPB && c < sb.size :: Used(sb, blk, c)
      ensures r.Some? ==>
                && b <= r.value < sb.size && !Used(sb, old(blk), r.value)
                && blk == AllocBlock(sb, old(blk), r.value)
                && forall c | b <= c < r.value :: Used(sb, old(blk), c)
    {
      var x, bi := BBlock(sb, b), 0;
      while bi < BPB && b + bi < sb.size
        invariant 0 <= bi <= BPB && b + bi <= sb.size && blk == old(blk) && writes == old(writes) && Logged()
        invariant forall c | b <= c < b + bi :: Used(sb, blk, c)
      {
        var c: nat := b + bi;
        assert c / BPB == b / BPB && c % BPB == bi;
        if !Bit(blk[x][bi / 8], bi % 8) {
          assert !Used(sb, blk, c);
          MarkBlock(c, x, bi);
          return Some(c);
        }
        bi := bi + 1;
      }
      return None;
    }

    /** balloc: the first block whose bit is clear, now marked and zeroed. None is the panic "out of blocks". */
    method Balloc() returns (r: Option<nat>)
      requires DiskOk(sb, blk)
      requires Logged()
      modifies this`blk, this`writes
      ensures Logged()
      ensures r.None? ==> writes == old(writes)
      ensures r.Some? ==> Touched(writes) == Touched(old(writes)) + {BBlock(sb, r.value), r.value}
      ensures r.None? ==> blk == old(blk) && AllUsed(sb, blk)
      ensures r.Some? ==>
                && r.value < sb.size && !Used(sb, old(blk), r.value)
                && blk == AllocBlock(sb, old(blk), r.value)
                && forall c | 0 <= c < r.value :: Used(sb, old(blk), c)
    {
      var b: nat := 0;
      while b < sb.size
        invariant b % BPB == 0 && blk == old(blk) && writes == old(writes) && Logged()
        invariant forall c | 0 <= c < b && c < sb.size :: Used(sb, blk, c)
      {
        r := BallocIn(b);
        if r.Some? { return; }
        b := b + BPB;
      }
      return None;
    }

    /** bmap: the block of file block bn, allocating it (and the indirect block) if there is none. No file changes.
        None is a panic: bn is out of range, or fewer blocks are free than have to be allocated. */
    method Bmap(n: nat, bn: nat) returns (r: Option<nat>)
      requires Owned(sb, blk, ip, owner, {}) && n < |ip|
      requires Logged()
      modifies this`blk, this`ip, this`owner, this`writes
      ensures Logged()
      ensures Owned(sb, blk, ip, owner, {})
      ensures Grown(sb, old(blk), old(ip), blk, ip, n)
      ensures r.Some? ==> bn < MAXFILE && r.value == Ref(blk, ip[n], SlotOf(bn)) != 0
      ensures r.None? ==> bn >= MAXFILE || (AllUsed(sb, blk) && Ref(blk, ip[n], SlotOf(bn)) == 0)
      ensures bn < MAXFILE ==> Spent(sb, old(blk), old(ip)[n], blk, ip[n], bn)
      ensures bn < MAXFILE ==> (r.None? <==> FreeBlocks(sb, old(blk)) < Missing(old(blk), old(ip)[n], bn, bn + 1))
      ensures bn < MAXFILE ==> MapCharged(sb, Touched(old(writes)), Touched(writes), blk, ip[n], bn)
      ensures bn < MAXFILE && Ref(old(blk), old(ip)[n], SlotOf(bn)) != 0 ==>
                r.Some? && blk == old(blk) && ip == old(ip) && owner == old(owner) && writes == old(writes)
    {
      if bn < NDIRECT {
        r := BmapDirect(n, bn);
        OneNeeded(sb, old(blk), old(ip)[n], blk, ip[n], bn, r.Some?);
        return;
      }
      var i := bn - NDIRECT;
      if i < NINDIRECT {
        r := BmapIndirect(n, i);
        OneNeeded(sb, old(blk), old(ip)[n], blk, ip[n], bn, r.Some?);
        return;
      }
      return None;
    }

    /** The first half of bmap. */
    method BmapDirect(n: nat, bn: nat) returns (r: Option<nat>)
      requires Owned(sb, blk, ip, owner, {}) && n < |ip| && bn < NDIRECT
      requires Logged()
      modifies this`blk, this`ip, this`owner, this`writes
      ensures Logged()
      ensures Owned(sb, blk, ip, owner, {})
      ensures Grown(sb, old(blk), old(ip), blk, ip, n)
      ensures r.Some? ==> r.value == Ref(blk, ip[n], bn) != 0
      ensures r.None? ==> AllUsed(sb, blk) && Ref(blk, ip[n], bn) == 0
      ensures Spent(sb, old(blk), old(ip)[n], blk, ip[n], bn)
      ensures MapCharged(sb, Touched(old(writes)), Touched(writes), blk, ip[n], bn)
      ensures Ref(old(blk), old(ip)[n], bn) != 0 ==>
                r.Some? && blk == old(blk) && ip == old(ip) && owner == old(owner) && writes == old(writes)
    {
      var addr := ip[n].addrs[bn];
      if addr == 0 {
        var b := Balloc();
        if b.None? { return None; }
        AllocAddr(sb, old(blk), ip, owner, n, bn, b.value, bn);
        addr := b.value;
        ip := SetAddr(ip, n, bn, addr);
        owner := owner[addr := (n, bn)];
        assert Ref(blk, ip[n], SlotOf(bn)) == addr;
      }
      return Some(addr);
    }

    /** The second half of bmap. */
    method BmapIndirect(n: nat, i: nat) returns (r: Option<nat>)
      requires Owned(sb, blk, ip, owner, {}) && n < |ip| && i < NINDIRECT
      requires Logged()
      modifies this`blk, this`ip, this`owner, this`writes
      ensures Logged()
      ensures Owned(sb, blk, ip, owner, {})
      ensures Grown(sb, old(blk), old(ip), blk, ip, n)
      ensures r.Some? ==> r.value == Ref(blk, ip[n], INDIRECT + 1 + i) != 0
      ensures r.None? ==> AllUsed(sb, blk) && Ref(blk, ip[n], INDIRECT + 1 + i) == 0
      ensures Spent(sb, old(blk), old(ip)[n], blk, ip[n], NDIRECT + i)
      ensures MapCharged(sb, Touched(old(writes)), Touched(writes), blk, ip[n], NDIRECT + i)
      ensures Ref(old(blk), old(ip)[n], INDIRECT + 1 + i) != 0 ==>
                r.Some? && blk == old(blk) && ip == old(ip) && owner == old(owner) && writes == old(writes)
    {
      if ip[n].addrs[INDIRECT] == 0 {
        var a := Balloc();
        if a.None? { return None; }
        AllocAddr(sb, old(blk), ip, owner, n, INDIRECT, a.value, NDIRECT + i);
        ip := SetAddr(ip, n, INDIRECT, a.value);
        owner := owner[a.value := (n, INDIRECT)];
      }
      ghost var blk1, ip1 := blk, ip;
      assert ip[n].addrs[INDIRECT] == Ref(blk, ip[n], INDIRECT);
      r := BmapEntry(n, i);
      assert ip[n].addrs[INDIRECT] == Ref(blk, ip[n], INDIRECT);
      GrownTrans(sb, old(blk), old(ip), blk1, ip1, blk, ip, n);
      SpentTrans(sb, old(blk), old(ip)[n], blk1, ip1[n], blk, ip[n], NDIRECT + i);
    }

    /** The part of it that reads or makes the entry. */
    method BmapEntry(n: nat, i: nat) returns (r: Option<nat>)
      requires Owned(sb, blk, ip, owner, {}) && n < |ip| && i < NINDIRECT && ip[n].addrs[INDIRECT] != 0
      requires Logged()
      modifies this`blk, this`owner, this`writes
      ensures Logged()
      ensures Owned(sb, blk, ip, owner, {})
      ensures Grown(sb, old(blk), ip, blk, ip, n)
      ensures r.Some? ==> r.value == Ref(blk, ip[n], INDIRECT + 1 + i) != 0
      ensures r.None? ==> AllUsed(sb, blk) && Ref(blk, ip[n], INDIRECT + 1 + i) == 0
      ensures Spent(sb, old(blk), ip[n], blk, ip[n], NDIRECT + i)
      ensures MapCharged(sb, Touched(old(writes)), Touched(writes), blk, ip[n], NDIRECT + i)
      ensures Ref(old(blk), ip[n], INDIRECT + 1 + i) != 0 ==>
                r.Some? && blk == old(blk) && owner == old(owner) && writes == old(writes)
    {
      var a := ip[n].addrs[INDIRECT];
      assert Ref(blk, ip[n], INDIRECT) == a;
      RefOwned(sb, blk, ip, owner, {}, n, INDIRECT);
      var addr := GetWord(blk[a], i);
      if addr == 0 {
        var b := Balloc();
        if b.None? { return None; }
        addr := b.value;
        AllocEntry(sb, old(blk), ip, owner, n, i, addr);
        LogBlock(a, SetWord(blk[a], i, addr));
        owner := owner[addr := (n, INDIRECT + 1 + i)];
      }
      return Some(addr);
    }

    /** iupdate: the inode on disk becomes the one in memory. */
    method Iupdate(n: nat)
      requires DiskOk(sb, blk) && n < |ip| == sb.ninodes && InodeOk(ip[n])
      requires Logged()
      modifies this`blk, this`writes
      ensures Logged()
      ensures blk == PutInode(sb, old(blk), n, ip[n])
      ensures writes == old(writes) + [(IBlock(sb, n), blk[IBlock(sb, n)])]
    {
      var x := IBlock(sb, n);
      LogBlock(x, PutWords(blk[x], INODE_WORDS * (n % IPB), InodeWords(ip[n])));
    }

    /** bmap in the loop of writei, for the block of byte off + tot. */
    method ChunkBlock(n: nat, src: seq<Byte>, off: nat, tot: nat, bn: nat, ghost blk0: Blocks, ghost ip0: seq<Inode>,
                      ghost w0: set<nat>, ghost lo: nat, ghost hi: nat)
      returns (a: Option<nat>)
      requires Owned(sb, blk, ip, owner, {}) && tot < |src| && off / BSIZE <= bn < MAXFILE && bn * BSIZE < off + |src|
      requires WriteStage(sb, blk0, ip0, blk, ip, n, off, src, tot) && Logged()
      requires WriteCharged(sb, w0, Touched(writes), blk0, ip0[n], blk, ip[n], off, off + |src|)
      requires lo <= bn < hi <= MAXFILE && SpentOver(sb, blk0, ip0[n], blk, ip[n], lo, hi)
      modifies this`blk, this`ip, this`owner, this`writes
      ensures Logged() && Owned(sb, blk, ip, owner, {}) && Grown(sb, old(blk), old(ip), blk, ip, n)
      ensures WriteCharged(sb, w0, Touched(writes), blk0, ip0[n], blk, ip[n], off, off + |src|)
      ensures a.Some? ==> a.value == Ref(blk, ip[n], SlotOf(bn)) != 0
      ensures Ref(old(blk), old(ip)[n], SlotOf(bn)) != 0 ==> ip == old(ip)
      ensures SpentOver(sb, blk0, ip0[n], blk, ip[n], lo, hi) && (a.None? ==> Short(sb, blk0, ip0[n], lo, hi))
    {
      ghost var w1 := Touched(writes);
      a := Bmap(n, bn);
      ChargeBmap(sb, w0, w1, Touched(writes), blk0, ip0, old(blk), old(ip), blk, ip, n, off, tot, off + |src|, bn);
      OverMore(sb, blk0, ip0[n], old(blk), old(ip)[n], blk, ip[n], bn, lo, hi);
    }

    /** The loop body of writei: m bytes more. lo and hi bound the file blocks of the whole write. */
    method WriteChunk(n: nat, src: seq<Byte>, off: nat, tot: nat, ghost blk0: Blocks, ghost ip0: seq<Inode>,
                      ghost w0: set<nat>, ghost lo: nat, ghost hi: nat)
      returns (ok: bool, m: nat)
      requires Owned(sb, blk, ip, owner, {}) && tot < |src| && off + |src| <= MAXFILE * BSIZE
      requires WriteStage(sb, blk0, ip0, blk, ip, n, off, src, tot) && Dense(blk0, ip0[n])
      requires WriteCharged(sb, w0, Touched(writes), blk0, ip0[n], blk, ip[n], off, off + |src|)
      requires lo == off / BSIZE && hi == EndBlock(off, |src|) && SpentOver(sb, blk0, ip0[n], blk, ip[n], lo, hi)
      requires Logged()
      modifies this`blk, this`ip, this`owner, this`writes
      ensures Logged()
      ensures Owned(sb, blk, ip, owner, {}) && n < |ip|
      ensures WriteCharged(sb, w0, Touched(writes), blk0, ip0[n], blk, ip[n], off, off + |src|)
      ensures ok ==> 0 < m <= |src| - tot && WriteStage(sb, blk0, ip0, blk, ip, n, off, src, tot + m)
      ensures SpentOver(sb, blk0, ip0[n], blk, ip[n], lo, hi) && (!ok ==> Short(sb, blk0, ip0[n], lo, hi))
    {
      BlockOf(off + tot);
      var bn, o := (off + tot) / BSIZE, (off + tot) % BSIZE;
      ghost var blk1, ip1 := blk, ip;
      var a := ChunkBlock(n, src, off, tot, bn, blk0, ip0, w0, lo, hi);
      if a.None? { return false, 0; }
      m := Chunk(|src| - tot, o);
      PutChunk(n, a.value, src, off, tot, m, bn, o, blk0, ip0, w0, blk1, ip1, lo, hi);
      ok := true;
    }

    /** The m bytes of src from tot on go to the block that bmap has returned; blk1 and ip1 are from before bmap. */
    method PutChunk(n: nat, a: nat, src: seq<Byte>, off: nat, tot: nat, m: nat, bn: nat, o: nat,
                    ghost blk0: Blocks, ghost ip0: seq<Inode>, ghost w0: set<nat>,
                    ghost blk1: Blocks, ghost ip1: seq<Inode>, ghost lo: nat, ghost hi: nat)
      requires WriteStage(sb, blk0, ip0, blk1, ip1, n, off, src, tot) && Dense(blk0, ip0[n]) && Logged()
      requires Owned(sb, blk, ip, owner, {}) && Grown(sb, blk1, ip1, blk, ip, n)
      requires 0 < m <= |src| - tot && bn < MAXFILE && off + tot == bn * BSIZE + o && o + m <= BSIZE
      requires a == Ref(blk, ip[n], SlotOf(bn)) != 0 && (Ref(blk1, ip1[n], SlotOf(bn)) != 0 ==> ip == ip1)
      requires WriteCharged(sb, w0, Touched(writes), blk0, ip0[n], blk, ip[n], off, off + |src|)
      requires SpentOver(sb, blk0, ip0[n], blk, ip[n], lo, hi)
      modifies this`blk, this`writes
      ensures Logged() && Owned(sb, blk, ip, owner, {}) && WriteStage(sb, blk0, ip0, blk, ip, n, off, src, tot + m)
      ensures WriteCharged(sb, w0, Touched(writes), blk0, ip0[n], blk, ip[n], off, off + |src|)
      ensures SpentOver(sb, blk0, ip0[n], blk, ip[n], lo, hi)
    {
      var bytes := src[tot..tot + m];
      WriteStep(sb, blk0, ip0, blk1, ip1, blk, ip, owner, n, off, src, tot, m, bn, o, bytes);
      ghost var blk2 := blk[a := Splice(blk[a], o, bytes)];
      ChargeData(sb, w0, Touched(writes), blk0, ip0[n], blk, blk2, ip[n], off, off + |src|, bn);
      OverData(sb, blk0, ip0[n], blk, ip[n], a, Splice(blk[a], o, bytes), lo, hi);
      PutBytes(a, o, bytes);
    }

    /** memmove into the block, and log_write. */
    method PutBytes(a: nat, o: nat, bytes: seq<Byte>)
      requires Logged() && a < |blk| && o + |bytes| <= BSIZE
      modifies this`blk, this`writes
      ensures Logged() && blk == old(blk)[a := Splice(old(blk)[a], o, bytes)]
      ensures Touched(writes) == Touched(old(writes)) + {a}
    {
      LogBlock(a, Splice(blk[a], o, bytes));
    }

    /** The loop of writei. */
    method WriteLoop(n: nat, src: seq<Byte>, off: nat, ghost blk0: Blocks, ghost ip0: seq<Inode>, ghost w0: set<nat>,
                     ghost lo: nat, ghost hi: nat)
      returns (ok: bool)
      requires Owned(sb, blk, ip, owner, {}) && off + |src| <= MAXFILE * BSIZE
      requires WriteStage(sb, blk0, ip0, blk, ip, n, off, src, 0) && Dense(blk0, ip0[n])
      requires WriteCharged(sb, w0, Touched(writes), blk0, ip0[n], blk, ip[n], off, off + |src|)
      requires lo == off / BSIZE && hi == EndBlock(off, |src|) && SpentOver(sb, blk0, ip0[n], blk, ip[n], lo, hi)
      requires Logged()
      modifies this`blk, this`ip, this`owner, this`writes
      ensures Logged()
      ensures Owned(sb, blk, ip, owner, {}) && n < |ip|
      ensures WriteCharged(sb, w0, Touched(writes), blk0, ip0[n], blk, ip[n], off, off + |src|)
      ensures ok ==> WriteStage(sb, blk0, ip0, blk, ip, n, off, src, |src|)
      ensures SpentOver(sb, blk0, ip0[n], blk, ip[n], lo, hi) && (ok <==> !Short(sb, blk0, ip0[n], lo, hi))
      ensures ok ==> FreeBlocks(sb, blk) == FreeBlocks(sb, blk0) - Missing(blk0, ip0[n], lo, hi)
    {
      var tot := 0;
      while tot < |src|
        invariant 0 <= tot <= |src|
        invariant Owned(sb, blk, ip, owner, {}) && Logged()
        invariant WriteStage(sb, blk0, ip0, blk, ip, n, off, src, tot)
        invariant WriteCharged(sb, w0, Touched(writes), blk0, ip0[n], blk, ip[n], off, off + |src|)
        invariant SpentOver(sb, blk0, ip0[n], blk, ip[n], lo, hi)
      {
        var m: nat;
        ok, m := WriteChunk(n, src, off, tot, blk0, ip0, w0, lo, hi);
        if !ok { return; }
        tot := tot + m;
      }
      WriteMapped(sb, blk0, ip0, blk, ip, n, off, src, lo, hi);
      return true;
    }

    /** ip->size = off and iupdate. */
    method Extend(n: nat, src: seq<Byte>, off: nat, ghost blk0: Blocks, ghost ip0: seq<Inode>)
      requires WriteStage(sb, blk0, ip0, blk, ip, n, off, src, |src|) && Owned(sb, blk, ip, owner, {})
      requires |ip0| == sb.ninodes && Synced(sb, blk0, ip0) && forall m | 0 <= m < |ip0| :: Dense(blk0, ip0[m])
      requires off <= ip0[n].size < off + |src| <= MAXFILE * BSIZE
      requires Logged()
      modifies this`blk, this`ip, this`writes
      ensures Valid() && |ip| == |ip0| && ip[n].typ == old(ip)[n].typ && Written(blk0, ip0, blk, ip, n, off, src)
      ensures writes == old(writes) + [(IBlock(sb, n), blk[IBlock(sb, n)])]
      ensures SameUse(sb, old(blk), old(ip)[n], blk, ip[n])
    {
      ghost var blk1, ip1 := blk, ip;
      ip := SetSize(ip, n, off + |src|);
      Iupdate(n);
      WriteBeyond(sb, blk0, ip0, blk1, ip1, owner, n, off, src, ip, blk);
    }

    /** The end of writei: the new size and iupdate, if the file grew. */
    method FinishWrite(n: nat, src: seq<Byte>, off: nat, ghost blk0: Blocks, ghost ip0: seq<Inode>)
      requires WriteStage(sb, blk0, ip0, blk, ip, n, off, src, |src|) && Owned(sb, blk, ip, owner, {})
      requires |ip0| == sb.ninodes && Synced(sb, blk0, ip0) && forall m | 0 <= m < |ip0| :: Dense(blk0, ip0[m])
      requires off <= ip0[n].size && off + |src| <= MAXFILE * BSIZE
      requires Logged()
      modifies this`blk, this`ip, this`writes
      ensures Logged()
      ensures Valid() && |ip| == |ip0| && Written(blk0, ip0, blk, ip, n, off, src)
      ensures old(writes) <= writes && |writes| <= |old(writes)| + 1 && ip[n].typ == ip0[n].typ
      ensures |writes| > |old(writes)| ==> writes[|old(writes)|].0 == IBlock(sb, n)
      ensures SameUse(sb, old(blk), old(ip)[n], blk, ip[n])
    {
      TypKept(sb, blk0, ip0, blk, ip, n, off, src, |src|);
      if |src| > 0 && off + |src| > ip[n].size {
        Extend(n, src, off, blk0, ip0);
      } else {
        WriteWithin(sb, blk0, ip0, blk, ip, owner, n, off, src);
      }
    }

    /** The part of writei behind its checks. */
    method WriteTo(n: nat, src: seq<Byte>, off: Uint) returns (ok: bool)
      requires Valid() && n < |ip| && off <= ip[n].size && off + |src| <= MAXFILE * BSIZE
      modifies this`blk, this`ip, this`owner, this`writes
      ensures Logged() && Owned(sb, blk, ip, owner, {})
      ensures ok <==> !Short(sb, old(blk), old(ip)[n], off / BSIZE, EndBlock(off, |src|))
      ensures ok ==> Valid() && |ip| == |old(ip)| && ip[n].typ == old(ip)[n].typ
      ensures ok ==> Written(old(blk), old(ip), blk, ip, n, off, src)
      ensures ok ==> FreeBlocks(sb, blk) == FreeBlocks(sb, old(blk)) - Needed(old(blk), old(ip)[n], off, |src|)
      ensures ok ==> SpentOver(sb, old(blk), old(ip)[n], blk, ip[n], off / BSIZE, EndBlock(off, |src|))
      ensures old(writes) == [] && |src| <= 3 * BSIZE ==> Frugal(writes)
      ensures AtHome(sb, Touched(old(writes)), Touched(writes))
    {
      ghost var lo, hi := off / BSIZE, EndBlock(off, |src|);
      ghost var blk0, ip0 := blk, ip;
      WriteStart(sb, blk, ip, n, off, src);
      ok := WriteLoop(n, src, off, blk0, ip0, Touched(writes), lo, hi);
      ghost var blk1, ip1, w1 := blk, ip, writes;
      ChargedHome(sb, Touched(old(writes)), Touched(w1), blk0, ip0, blk, ip, owner, n, off, off + |src|);
      if ok {
        FinishWrite(n, src, off, blk0, ip0);
        OverSame(sb, blk0, ip0[n], blk1, ip1[n], blk, ip[n], lo, hi);
      }
      HomeMore(sb, Touched(old(writes)), w1, writes, n);
      if old(writes) == [] && |src| <= 3 * BSIZE {
        WriteFrugal(sb, w1, writes, blk0, ip0[n], blk1, ip1[n], off, off + |src|);
      }
    }

    /** writei: a refused write changes nothing, a completed one splices the bytes into the file at off, extends the
        file exactly as far as needed, takes exactly the free blocks that were missing, touches no other file, and
        leaves every inode on disk as it is in memory. It panics exactly if fewer blocks are free than are missing, so
        never within the size. A call for at most three blocks' worth of bytes, as filewrite makes them, makes each of
        its log_write calls when it has changed fewer than MAXOPBLOCKS blocks. */
    method Writei(n: nat, src: seq<Byte>, off: Uint) returns (r: Io)
      requires Valid() && n < |ip| && |src| < WORD_LIMIT && ip[n].typ != T_DEV
      modifies this`blk, this`ip, this`owner, this`writes
      ensures Logged()
      ensures r.Error? <==> off > old(ip)[n].size || off + |src| > MAXFILE * BSIZE
      ensures r.Error? ==> blk == old(blk) && ip == old(ip) && owner == old(owner) && writes == old(writes)
      ensures r.Done? ==> r.count == |src| && Valid() && |ip| == |old(ip)| && ip[n].typ == old(ip)[n].typ
      ensures r.Done? ==> Written(old(blk), old(ip), blk, ip, n, off, src)
      ensures Owned(sb, blk, ip, owner, {})
      ensures !r.Error? ==> (r.Panic? <==> FreeBlocks(sb, old(blk)) < Needed(old(blk), old(ip)[n], off, |src|))
      ensures off + |src| <= old(ip)[n].size ==> r.Done?
      ensures r.Done? ==> FreeBlocks(sb, blk) == FreeBlocks(sb, old(blk)) - Needed(old(blk), old(ip)[n], off, |src|)
      ensures r.Done? ==> SpentOver(sb, old(blk), old(ip)[n], blk, ip[n], off / BSIZE, EndBlock(off, |src|))
      ensures old(writes) == [] && |src| <= 3 * BSIZE ==> Frugal(writes)
      ensures AtHome(sb, Touched(old(writes)), Touched(writes))
    {
      UintSum(off, |src|);
      if off > ip[n].size || (off + |src|) % WORD_LIMIT < off {
        return Error;
      }
      if (off + |src|) % WORD_LIMIT > MAXFILE * BSIZE {
        return Error;
      }
      ShortNeeds(sb, blk, ip[n], off, |src|);
      if off + |src| <= ip[n].size { WithinNeeds(blk, ip[n], off, |src|); }
      var ok := WriteTo(n, src, off);
      r := if ok then Done(|src|) else Panic;
    }

    /** The loop body of readi: the bytes from `at` on to the end of the block or to `end`. */
    method ReadChunk(n: nat, at: nat, end: nat, ghost s: seq<Byte>) returns (bytes: seq<Byte>)
      requires Sound(sb, blk, ip, owner) && n < |ip| && at < end <= ip[n].size && s == Contents(blk, ip[n])
      requires Logged()
      modifies this`blk, this`ip, this`owner, this`writes
      ensures blk == old(blk) && ip == old(ip) && owner == old(owner) && writes == old(writes)
      ensures 0 < |bytes| <= end - at && bytes == s[at..at + |bytes|]
    {
      BlockOf(at);
      DenseAt(blk, ip[n], at);
      var bn, o := at / BSIZE, at % BSIZE;
      var a := Bmap(n, bn);
      var c := Chunk(end - at, o);
      ChunkRead(sb, blk, ip, owner, n, bn, o, c);
      bytes := blk[a.value][o..o + c];
    }

    /** The loop of readi. */
    method ReadLoop(n: nat, off: nat, m: nat) returns (dst: seq<Byte>)
      requires Sound(sb, blk, ip, owner) && n < |ip| && off + m <= ip[n].size
      requires Logged()
      modifies this`blk, this`ip, this`owner, this`writes
      ensures blk == old(blk) && ip == old(ip) && owner == old(owner) && writes == old(writes)
      ensures dst == Contents(blk, ip[n])[off..off + m]
    {
      dst := [];
      ghost var s := Contents(blk, ip[n]);
      var tot: nat, at: nat := 0, off;
      while tot < m
        invariant tot <= m && at == off + tot
        invariant blk == old(blk) && ip == old(ip) && owner == old(owner) && writes == old(writes)
        invariant dst == s[off..at]
      {
        var bytes := ReadChunk(n, at, off + m, s);
        var next: nat := at + |bytes|;
        SliceMore(s, off, at, next);
        dst, tot, at := dst + bytes, tot + |bytes|, next;
      }
    }

    /** readi: exactly the bytes of the file from off on, as many as asked for or as there are. Nothing changes. */
    method Readi(n: nat, off: Uint, cnt: Uint) returns (r: Io, dst: seq<Byte>)
      requires Valid() && n < |ip| && ip[n].typ != T_DEV
      modifies this`blk, this`ip, this`owner, this`writes
      ensures blk == old(blk) && ip == old(ip) && owner == old(owner) && writes == old(writes)
      ensures r.Error? <==> off > ip[n].size || off + cnt >= WORD_LIMIT
      ensures !r.Error? ==>
                var m := if off + cnt > ip[n].size then ip[n].size - off else cnt;
                r == Done(m) && dst == Contents(blk, ip[n])[off..off + m]
    {
      UintSum(off, cnt);
      if off > ip[n].size || (off + cnt) % WORD_LIMIT < off {
        return Error, [];
      }
      var m: nat := cnt;
      if (off + cnt) % WORD_LIMIT > ip[n].size {
        m := ip[n].size - off;
      }
      dst := ReadLoop(n, off, m);
      r := Done(m);
    }

    /** bfree: false is the panic "freeing free block". */
    method Bfree(b: nat) returns (ok: bool)
      requires DiskOk(sb, blk) && b < sb.size
      requires Logged()
      modifies this`blk, this`writes
      ensures Logged()
      ensures ok <==> Used(sb, old(blk), b)
      ensures blk == if ok then ClearUsed(sb, old(blk), b) else old(blk)
      ensures Touched(writes) == Touched(old(writes)) + if ok then {BBlock(sb, b)} else {}
    {
      var x, bi := BBlock(sb, b), b % BPB;
      if !Bit(blk[x][bi / 8], bi % 8) {
        return false;
      }
      ClearBit(blk[x][bi / 8], bi % 8, 0);
      LogBlock(x, blk[x][bi / 8 := blk[x][bi / 8] - Mask(bi % 8)]);
      return true;
    }

    /** The first loop of itrunc; bfree never panics in it. */
    method FreeDirect(n: nat)
      requires Owned(sb, blk, ip, owner, {}) && n < |ip|
      requires Logged()
      modifies this`blk, this`ip, this`owner, this`writes
      ensures Logged()
      ensures Owned(sb, blk, ip, owner, {})
      ensures DirectFreed(sb, old(blk), old(ip), old(owner), blk, ip, owner, n, NDIRECT)
      ensures MapOnly(sb, Touched(old(writes)), Touched(writes))
    {
      var i := 0;
      while i < NDIRECT
        invariant 0 <= i <= NDIRECT && Owned(sb, blk, ip, owner, {}) && Logged()
        invariant MapOnly(sb, Touched(old(writes)), Touched(writes))
        invariant DirectFreed(sb, old(blk), old(ip), old(owner), blk, ip, owner, n, i)
      {
        if ip[n].addrs[i] != 0 {
          var b := ip[n].addrs[i];
          ghost var blk1 := blk;
          FreeAddr(sb, blk, ip, owner, n, i);
          MapBlock(sb, b);
          var done := Bfree(b);
          assert done;
          DirectFreedStep(sb, old(blk), old(ip), old(owner), blk1, ip, owner, n, i, b, blk);
          ip := SetAddr(ip, n, i, 0);
          owner := owner - {b};
        }
        i := i + 1;
      }
    }

    /** The second loop of itrunc; bfree never panics in it. */
    method FreeIndirect(n: nat, a: nat)
      requires Owned(sb, blk, ip, owner, {}) && n < |ip| && a == ip[n].addrs[INDIRECT] != 0
      requires Logged()
      modifies this`blk, this`writes
      ensures Logged()
      ensures FreedEntries(sb, old(blk), blk, owner, n, NINDIRECT)
      ensures MapOnly(sb, Touched(old(writes)), Touched(writes))
    {
      assert Ref(blk, ip[n], INDIRECT) == a;
      RefOwned(sb, blk, ip, owner, {}, n, INDIRECT);
      var v := blk[a];
      var j := 0;
      while j < NINDIRECT
        invariant 0 <= j <= NINDIRECT && Logged() && MapOnly(sb, Touched(old(writes)), Touched(writes))
        invariant FreedEntries(sb, old(blk), blk, owner, n, j)
      {
        FreeEntry(sb, old(blk), blk, ip, owner, n, j);
        assert Ref(old(blk), ip[n], INDIRECT + 1 + j) == GetWord(v, j);
        if GetWord(v, j) != 0 {
          MapBlock(sb, GetWord(v, j));
          var done := Bfree(GetWord(v, j));
          assert done;
        }
        j := j + 1;
      }
    }

    /** itrunc between the first loop and the end: the indirect block and what it points to. */
    method FreeRest(n: nat)
      requires Owned(sb, blk, ip, owner, {}) && n < |ip| && forall k | 0 <= k < NDIRECT :: ip[n].addrs[k] == 0
      requires Logged()
      modifies this`blk, this`ip, this`owner, this`writes
      ensures Logged()
      ensures SameData(sb, old(blk), blk) && ip == NoAddrs(old(ip), n) && owner == Others(old(owner), n)
      ensures Owned(sb, blk, ip, owner, {}) && MapOnly(sb, Touched(old(writes)), Touched(writes))
    {
      var a := ip[n].addrs[INDIRECT];
      assert Ref(blk, ip[n], INDIRECT) == a;
      if a != 0 {
        RefOwned(sb, blk, ip, owner, {}, n, INDIRECT);
        FreeIndirect(n, a);
        ClearFrame(sb, blk, a);
        MapBlock(sb, a);
        var done := Bfree(a);
        assert done;
      } else {
        NoEntries(sb, blk, ip, owner, n);
      }
      AllFreed(sb, old(blk), ip, owner, blk, n);
      ClearedAddrs(ip[n].addrs);
      ip := SetAddr(ip, n, INDIRECT, 0);
      owner := Others(owner, n);
    }

    /** itrunc up to size = 0: inode n gives up its blocks and nothing else. */
    method FreeAll(n: nat)
      requires Owned(sb, blk, ip, owner, {}) && n < |ip|
      requires Logged()
      modifies this`blk, this`ip, this`owner, this`writes
      ensures Logged()
      ensures SameData(sb, old(blk), blk) && ip == NoAddrs(old(ip), n) && owner == Others(old(owner), n)
      ensures Owned(sb, blk, ip, owner, {}) && MapOnly(sb, Touched(old(writes)), Touched(writes))
    {
      FreeDirect(n);
      OthersSame(old(owner), owner, n);
      assert NoAddrs(ip, n) == NoAddrs(old(ip), n);
      FreeRest(n);
    }

    /** size = 0 and iupdate. */
    method FinishTrunc(n: nat, ghost blk0: Blocks, ghost ip0: seq<Inode>, ghost owner0: Owner)
      requires Owned(sb, blk0, ip0, owner0, {}) && Owned(sb, blk, ip, owner, {}) && n < |ip| == sb.ninodes
      requires OthersKept(sb, blk0, ip0, blk, ip, n) && SameData(sb, blk0, blk) && Logged()
      requires Synced(sb, blk0, ip0) && forall m | 0 <= m < |ip0| :: Dense(blk0, ip0[m])
      requires ip == NoAddrs(ip0, n) && owner == Others(owner0, n)
      modifies this`blk, this`ip, this`writes
      ensures Valid() && ip == Truncated(ip0, n)
      ensures forall b | 0 <= b < sb.size :: Used(sb, blk, b) <==>
                Used(sb, blk0, b) && !(b in owner0 && owner0[b].0 == n)
      ensures forall m | 0 <= m < |ip| && m != n :: Contents(blk, ip[m]) == Contents(blk0, ip0[m])
      ensures |writes| == |old(writes)| + 1 && old(writes) <= writes && writes[|writes| - 1].0 == IBlock(sb, n)
    {
      ghost var blk1, ip1 := blk, ip;
      ip := SetSize(ip, n, 0);
      Iupdate(n);
      TruncFinish(sb, blk0, ip0, blk1, ip1, owner, n, ip, blk);
      forall b | 0 <= b < sb.size
        ensures Used(sb, blk, b) <==> Used(sb, blk0, b) && !(b in owner0 && owner0[b].0 == n)
      {
        FreedExactly(sb, blk0, ip0, owner0, blk, ip, n, b);
      }
    }

    /** itrunc: the file is empty, exactly its own blocks are free again, every other file is untouched, and bfree
        never panics. However many log_write calls it makes, they are for blocks of the free map, and the last one is
        for the inode; so with a free map of fewer than MAXOPBLOCKS blocks each is made with fewer blocks changed
        before. */
    method Itrunc(n: nat)
      requires Valid() && n < |ip|
      modifies this`blk, this`ip, this`owner, this`writes
      ensures Logged()
      ensures Valid() && ip == Truncated(old(ip), n)
      ensures ip[n] == old(ip)[n].(size := 0, addrs := seq(NDIRECT + 1, _ => 0))
      ensures owner == Others(old(owner), n)
      ensures forall b | 0 <= b < sb.size ::
                Used(sb, blk, b) <==> Used(sb, old(blk), b) && !(b in old(owner) && old(owner)[b].0 == n)
      ensures forall m | 0 <= m < |ip| && m != n :: Contents(blk, ip[m]) == Contents(old(blk), old(ip)[m])
      ensures writes != [] && writes[|writes| - 1].0 == IBlock(sb, n)
      ensures MapOnly(sb, Touched(old(writes)), Touched(writes[..|writes| - 1]))
      ensures old(writes) == [] && MapBlocks(sb) < MAXOPBLOCKS ==> Frugal(writes)
      ensures AtHome(sb, Touched(old(writes)), Touched(writes))
    {
      ghost var blk0, ip0, owner0 := blk, ip, owner;
      FreeAll(n);
      FreedKeepsOthers(sb, blk0, ip0, owner0, blk, ip, n);
      ghost var w1 := writes;
      FinishTrunc(n, blk0, ip0, owner0);
      assert writes[..|writes| - 1] == w1;
      HomeMore(sb, Touched(old(writes)), w1, writes, n);
      if old(writes) == [] && MapBlocks(sb) < MAXOPBLOCKS {
        TruncFrugal(sb, w1, writes);
      }
    }
  }
}
