/** Files and crashes: the inode layer runs on the block map of the log, so a crash at any point leaves all files as
    they were at a moment when no operation was open. */
module FileCrash {
  import opened Bytes
  import opened Crash
  import opened Files
  import opened FileSystem
  import opened Words
  import P = LogProtocol

  /** The blocks of the file system on disk d. */
  ghost function Image(l: Layout, sb: Superblock, d: Disk): (blk: Blocks)
    ensures |blk| == sb.size && forall b | 0 <= b < sb.size :: blk[b] == Read(d, l.At(b))
  {
    seq(sb.size, b requires 0 <= b < sb.size => Read(d, l.At(b)))
  }

  /** The log_write calls of one operation, as the log records them. */
  function Changes(op: nat, w: BlockWrites): (h: seq<P.Change>) {
    seq(|w|, i requires 0 <= i < |w| => P.Change(op, w[i].0, w[i].1))
  }

  /** Replaying the calls on disk is redoing them on the blocks. */
  lemma {:induction false} ReplayImage(l: Layout, sb: Superblock, base: Disk, h: seq<P.Change>, op: nat, w: BlockWrites)
    ensures Image(l, sb, P.Replay(l, base, h + Changes(op, w))) == Redo(Image(l, sb, P.Replay(l, base, h)), w)
    decreases |w|
  {
    var all := h + Changes(op, w);
    if w == [] {
      assert all == h;
    } else {
      var front, last := w[..|w| - 1], w[|w| - 1];
      assert all[..|all| - 1] == h + Changes(op, front) && all[|all| - 1] == P.Change(op, last.0, last.1);
      ReplayImage(l, sb, base, h, op, front);
    }
  }

  /** The blocks agree wherever the inode layer looks: from the inodes on. */
  ghost predicate Agree(sb: Superblock, blk: Blocks, blk': Blocks) {
    |blk'| == |blk| == sb.size && forall b | sb.inodestart <= b < sb.size :: blk'[b] == blk[b]
  }

  /** The contents of file n, as a mount of these blocks finds them. */
  ghost function OnDisk(sb: Superblock, blk: Blocks, n: nat): (s: seq<Byte>)
    requires DiskOk(sb, blk) && n < sb.ninodes
  {
    var ino := DiskInode(sb, blk, n);
    if InodeOk(ino) then Contents(blk, ino) else []
  }

  lemma AgreeInodes(sb: Superblock, blk: Blocks, blk': Blocks, n: nat)
    requires DiskOk(sb, blk) && DiskOk(sb, blk') && Agree(sb, blk, blk') && n < sb.ninodes
    ensures DiskInode(sb, blk', n) == DiskInode(sb, blk, n)
  {
    assert sb.inodestart <= IBlock(sb, n) < sb.size;
  }

  lemma AgreeByte(sb: Superblock, blk: Blocks, blk': Blocks, ip: seq<Inode>, owner: Owner, n: nat, p: nat)
    requires Owned(sb, blk, ip, owner, {}) && Agree(sb, blk, blk') && n < |ip| && p < MAXFILE * BSIZE
    ensures RawByte(blk', ip[n], p) == RawByte(blk, ip[n], p)
  {
    var k := SlotOf(p / BSIZE);
    if Ref(blk, ip[n], INDIRECT) != 0 { RefOwned(sb, blk, ip, owner, {}, n, INDIRECT); }
    if Ref(blk, ip[n], k) != 0 { RefOwned(sb, blk, ip, owner, {}, n, k); }
    assert Ref(blk, ip[n], INDIRECT) == ip[n].addrs[INDIRECT];
  }

  /** Such blocks hold the same files. */
  lemma AgreeFiles(sb: Superblock, blk: Blocks, blk': Blocks, ip: seq<Inode>, owner: Owner, n: nat)
    requires Sound(sb, blk, ip, owner) && Synced(sb, blk, ip) && DiskOk(sb, blk') && Agree(sb, blk, blk')
    requires n < sb.ninodes
    ensures OnDisk(sb, blk', n) == Contents(blk, ip[n])
  {
    AgreeInodes(sb, blk, blk', n);
    assert DiskInode(sb, blk, n) == ip[n];
    forall p | 0 <= p < ip[n].size ensures RawByte(blk', ip[n], p) == RawByte(blk, ip[n], p) {
      AgreeByte(sb, blk, blk', ip, owner, n, p);
    }
  }

  /** A recovered disk has the home blocks of the durable state, and the inode layer looks at no log block. */
  lemma RecoveredAgrees(l: Layout, sb: Superblock, d: Disk, want: Disk)
    requires P.SameAs(l, d, want) && LayoutOk(sb) && l.start + l.size <= sb.inodestart
    ensures Agree(sb, Image(l, sb, want), Image(l, sb, d))
  {
    forall b | sb.inodestart <= b < sb.size ensures Read(d, l.At(b)) == Read(want, l.At(b)) {
      assert !l.InLog(l.At(b));
    }
  }

  /** The blocks hold the files of ip, on disk as in memory. */
  ghost predicate Holds(sb: Superblock, blk: Blocks, ip: seq<Inode>, owner: Owner) {
    Sound(sb, blk, ip, owner) && Synced(sb, blk, ip)
  }

  /** A disk that has the home blocks of blk holds its files. */
  lemma RecoveredFiles(l: Layout, sb: Superblock, d: Disk, want: Disk, ip: seq<Inode>, owner: Owner)
    requires P.SameAs(l, d, want) && LayoutOk(sb) && l.start + l.size <= sb.inodestart
    requires Holds(sb, Image(l, sb, want), ip, owner)
    ensures forall n | 0 <= n < sb.ninodes :: OnDisk(sb, Image(l, sb, d), n) == Contents(Image(l, sb, want), ip[n])
  {
    RecoveredAgrees(l, sb, d, want);
    forall n | 0 <= n < sb.ninodes
      ensures OnDisk(sb, Image(l, sb, d), n) == Contents(Image(l, sb, want), ip[n])
    {
      AgreeFiles(sb, Image(l, sb, want), Image(l, sb, d), ip, owner, n);
    }
  }

  /** Any number of operations, in any interleaving: a crash at any step of any run, with any recoveries, leaves the
      files of a quiet point p of the run, at which no operation was open: the one right after the last header write
      of a commit, or the start if there was none. It has all changes so far if nothing is listed. */
  lemma FilesDurable(l: Layout, sb: Superblock, base: Disk, events: seq<P.Event>, s: P.State, cuts: seq<nat>)
    returns (before: seq<P.Event>, after: seq<P.Event>, p: P.State)
    requires P.Reached(l, base, events, s) && l.size > 0 && LayoutOk(sb) && l.start + l.size <= sb.inodestart
    ensures s.committed <= |s.history| && events == before + after && P.LastHeaderWrite(l, base, events, |before|)
    ensures P.Reached(l, base, before, p) && p.ops == [] && p.history == s.history[..s.committed]
    ensures s.phase.Running? && s.blocks == [] ==> p.history == s.history
    ensures var blk, found := Image(l, sb, P.Replay(l, base, p.history)), Image(l, sb, Recover(l, s.disk, cuts));
            forall ip, owner, n | Holds(sb, blk, ip, owner) && 0 <= n < sb.ninodes ::
              OnDisk(sb, found, n) == Contents(blk, ip[n])
  {
    before, after, p := P.DurablePoint(l, base, events, s);
    P.OperationsAtomic(l, base, events, s, cuts);
    assert s.history[..|s.history|] == s.history;
    var want, d := P.Replay(l, base, p.history), Recover(l, s.disk, cuts);
    forall ip, owner | Holds(sb, Image(l, sb, want), ip, owner)
      ensures forall n | 0 <= n < sb.ninodes :: OnDisk(sb, Image(l, sb, d), n) == Contents(Image(l, sb, want), ip[n])
    {
      RecoveredFiles(l, sb, d, want, ip, owner);
    }
  }

  /** Operation op makes the log_write calls w, and has made k of them; until it has made them all it is open. */
  ghost predicate Underway(s: P.State, h0: seq<P.Change>, op: nat, w: BlockWrites, k: nat) {
    && k <= |w| && s.history == h0 + Changes(op, w[..k])
    && (0 < k < |w| ==> exists i :: 0 <= i < |s.ops| && s.ops[i].id == op)
  }

  /** The commit point does not split an operation, and does not come before its end. */
  lemma NotSplit(l: Layout, base: Disk, events: seq<P.Event>, s: P.State, h0: seq<P.Change>, op: nat, w: BlockWrites,
                 k: nat)
    requires P.Reached(l, base, events, s) && l.size > 0 && Underway(s, h0, op, w, k) && s.committed >= |h0|
    ensures s.committed == |h0| || (k == |w| && s.committed == |s.history|)
  {
    P.ReachedInv(l, base, events, s);
    var h := s.history;
    assert forall j | |h0| <= j < |h| :: h[j].op == op;
    if |h0| < |h| {
      assert h[|h0|].op == op && h[|h| - 1].op == op;
    }
  }

  /** One operation after a durable state, and a crash at any step of any run during or after it, also between two of
      its log_write calls: blk0 and ip0 are the files before the operation, Redo(blk0, w) and ip1 those after it. What
      is found after any recoveries is all files as before, or all as after; as after only if all its calls have been
      made and the header write of its commit as well. */
  lemma {:induction false} FilesAtomic(
      l: Layout, sb: Superblock, base: Disk, events: seq<P.Event>, s: P.State, cuts: seq<nat>,
      h0: seq<P.Change>, op: nat, w: BlockWrites, k: nat,
      ip0: seq<Inode>, owner0: Owner, ip1: seq<Inode>, owner1: Owner)
    requires P.Reached(l, base, events, s) && l.size > 0 && LayoutOk(sb) && l.start + l.size <= sb.inodestart
    requires Underway(s, h0, op, w, k) && s.committed >= |h0|
    requires var blk0 := Image(l, sb, P.Replay(l, base, h0));
             Holds(sb, blk0, ip0, owner0) && Holds(sb, Redo(blk0, w), ip1, owner1)
    ensures s.committed == |h0| || (k == |w| && s.committed == |s.history|)
    ensures var blk0 := Image(l, sb, P.Replay(l, base, h0));
            var found := Image(l, sb, Recover(l, s.disk, cuts));
            forall n | 0 <= n < sb.ninodes ::
              OnDisk(sb, found, n) ==
                if s.committed == |h0| then Contents(blk0, ip0[n]) else Contents(Redo(blk0, w), ip1[n])
  {
    P.OperationsAtomic(l, base, events, s, cuts);
    NotSplit(l, base, events, s, h0, op, w, k);
    var d := Recover(l, s.disk, cuts);
    if s.committed == |h0| {
      assert s.history[..s.committed] == h0;
      RecoveredFiles(l, sb, d, P.Replay(l, base, h0), ip0, owner0);
    } else {
      assert s.history[..s.committed] == s.history && w[..k] == w;
      ReplayImage(l, sb, base, h0, op, w);
      RecoveredFiles(l, sb, d, P.Replay(l, base, s.history), ip1, owner1);
    }
  }

  /** So it is with writei: after a crash at any step, before, between or after its log_write calls, file n has all the
      bytes spliced in or is as before, and no other file differs. */
  lemma {:induction false} WriteAtomic(
      l: Layout, sb: Superblock, base: Disk, events: seq<P.Event>, s: P.State, cuts: seq<nat>,
      h0: seq<P.Change>, op: nat, w: BlockWrites, k: nat,
      ip0: seq<Inode>, owner0: Owner, ip1: seq<Inode>, owner1: Owner, n: nat, off: nat, src: seq<Byte>)
    requires P.Reached(l, base, events, s) && l.size > 0 && LayoutOk(sb) && l.start + l.size <= sb.inodestart
    requires Underway(s, h0, op, w, k) && s.committed >= |h0| && n < sb.ninodes
    requires var blk0 := Image(l, sb, P.Replay(l, base, h0));
             && Holds(sb, blk0, ip0, owner0) && Holds(sb, Redo(blk0, w), ip1, owner1)
             && off <= ip0[n].size && Written(blk0, ip0, Redo(blk0, w), ip1, n, off, src)
    ensures var blk0 := Image(l, sb, P.Replay(l, base, h0));
            var found := Image(l, sb, Recover(l, s.disk, cuts));
            && OnDisk(sb, found, n) == (if s.committed == |h0| then Contents(blk0, ip0[n])
                                        else WriteAt(Contents(blk0, ip0[n]), off, src))
            && forall m | 0 <= m < sb.ninodes && m != n :: OnDisk(sb, found, m) == Contents(blk0, ip0[m])
    ensures k < |w| ==> s.committed == |h0|
  {
    FilesAtomic(l, sb, base, events, s, cuts, h0, op, w, k, ip0, owner0, ip1, owner1);
  }
}
