/** A mounted file system: the inode layer over the log, the buffer cache and the disk. */
module Mount {
  import opened Bytes
  import opened BufferCache
  import opened Crash
  import opened FileCrash
  import opened FileSystem
  import opened Files
  import opened Guards
  import opened Log
  import opened LogRefinement
  import opened Params
  import opened Space
  import opened Words
  import P = LogProtocol

  /** The operation has made the calls w. */
  ghost predicate Made(s: P.State, i: nat, h0: seq<P.Change>, op: nat, w: BlockWrites) {
    && s.history == h0 + Changes(op, w) && i < |s.ops| && s.ops[i] == P.Op(op, Touched(w))
  }

  /** One call more. */
  lemma MadeMore(l: Layout, base: Disk, s: P.State, i: nat, h0: seq<P.Change>, op: nat, w: BlockWrites, x: nat,
                 v: Block)
    requires Made(s, i, h0, op, w) && P.Enabled(l, base, s, P.Write(i, x, v))
    ensures Made(P.Next(l, base, s, P.Write(i, x, v)), i, h0, op, w + [(x, v)])
  {
    TouchedMore(w, x, v);
    assert Changes(op, w + [(x, v)]) == Changes(op, w) + [P.Change(op, x, v)];
  }

  class Mount {
    const run: Run
    const fs: Fs

    /** The log lies before the inodes and has room for one operation, and the disk has the file system's blocks. */
    ghost predicate Fits()
      reads run.log`view
    {
      var l := run.log.lay;
      && LayoutOk(fs.sb) && l.dev != 0 && l.size > MAXOPBLOCKS && l.start + l.size <= fs.sb.inodestart
      && forall b | fs.sb.inodestart <= b < fs.sb.size :: l.At(b) in run.log.view
    }

    /** The blocks on which the inode layer works, as the log's history gives them. */
    ghost function Current(): (blk: Blocks)
      reads run
    {
      Image(run.log.lay, fs.sb, P.Replay(run.log.lay, run.base, run.s.history))
    }

    /** Between operations, all of them finished and committed. */
    ghost predicate Quiet()
      reads this, run, run.log, run.log.cache, fs
    {
      && run.Live({}) && run.s.ops == [] && run.s.blocks == [] && Idle(run.log.cache.buf, {})
      && Fits() && fs.Valid() && fs.blk == Current()
    }

    constructor (run: Run, fs: Fs)
      requires run.Live({}) && run.s.ops == [] && run.s.blocks == [] && Idle(run.log.cache.buf, {})
      requires LayoutOk(fs.sb) && run.log.lay.dev != 0 && run.log.lay.size > MAXOPBLOCKS
      requires run.log.lay.start + run.log.lay.size <= fs.sb.inodestart
      requires forall b | fs.sb.inodestart <= b < fs.sb.size :: run.log.lay.At(b) in run.log.view
      requires fs.Valid() && fs.blk == Image(run.log.lay, fs.sb, P.Replay(run.log.lay, run.base, run.s.history))
      ensures this.run == run && this.fs == fs && Quiet()
    {
      this.run, this.fs := run, fs;
    }

    /** What the log's block map says is what the inode layer works on. */
    lemma SameBlocks(b: nat)
      requires run.Live({}) && Fits() && fs.blk == Current() && fs.sb.inodestart <= b < fs.sb.size
      ensures run.log.view[run.log.lay.At(b)] == fs.blk[b]
    {
      assert Detail(0);
    }

    /** The log_write calls of an operation that is alone, each with its bread and brelse. If every one of them is made
        with fewer than MAXOPBLOCKS blocks changed before, none of them panics. */
    method Perform(i: nat, w: BlockWrites)
      requires run.Live({}) && Fits() && Idle(run.log.cache.buf, {}) && i < |run.s.ops| && run.s.ops[i].used == {}
      requires run.s.blocks == [] && Frugal(w) && forall k | 0 <= k < |w| :: fs.sb.inodestart <= w[k].0 < fs.sb.size
      modifies run`events, run`s, run.log`n, run.log`block, run.log`view, run.log`pins, run.log.cache
      ensures run.Live({}) && Fits() && Idle(run.log.cache.buf, {})
      ensures Made(run.s, i, old(run.s.history), old(run.s.ops[i].id), w)
      ensures |run.s.ops| == |old(run.s.ops)| && |run.s.blocks| <= |Touched(w)|
    {
      ghost var h0, op := run.s.history, run.s.ops[i].id;
      assert Changes(op, []) == [] && Touched([]) == {};
      var k := 0;
      while k < |w|
        invariant 0 <= k <= |w| && run.Live({}) && Fits() && Idle(run.log.cache.buf, {})
        invariant Made(run.s, i, h0, op, w[..k]) && |run.s.ops| == |old(run.s.ops)|
        invariant |run.s.blocks| <= |Touched(w[..k])|
      {
        Call(i, w[k].0, w[k].1, h0, op, w[..k]);
        assert w[..k] + [w[k]] == w[..k + 1];
        k := k + 1;
      }
      assert w[..|w|] == w;
    }

    /** One of them. */
    method Call(i: nat, x: nat, v: Block, ghost h0: seq<P.Change>, ghost op: nat, ghost w: BlockWrites)
      requires run.Live({}) && Fits() && Idle(run.log.cache.buf, {}) && Made(run.s, i, h0, op, w)
      requires |run.s.blocks| <= |Touched(w)| < MAXOPBLOCKS && fs.sb.inodestart <= x < fs.sb.size
      modifies run`events, run`s, run.log`n, run.log`block, run.log`view, run.log`pins, run.log.cache
      ensures run.Live({}) && Fits() && Idle(run.log.cache.buf, {})
      ensures Made(run.s, i, h0, op, w + [(x, v)]) && |run.s.ops| == |old(run.s.ops)|
      ensures |run.s.blocks| <= |Touched(w + [(x, v)])|
    {
      P.OneMoreBlock(run.s.ops[i].used, x);
      WriteLists(run.log.lay, run.base, run.events, run.s, i, x);
      run.BufferLeft(run.log.lay.At(x));
      run.log.NoOthers({});
      var ok := run.Put(i, x, v, {});
      assert ok;
      MadeMore(run.log.lay, run.base, old(run.s), i, h0, op, w, x, v);
    }

    /** What the disk holds between operations: the files, as the inode layer sees them. */
    lemma DiskHolds(m: nat)
      requires Quiet() && m < fs.sb.ninodes
      ensures OnDisk(fs.sb, Image(run.log.lay, fs.sb, run.log.cache.disk), m) == Contents(fs.blk, fs.ip[m])
    {
      assert Stages(0);
      var l, sb := run.log.lay, fs.sb;
      QuietDisk(l, run.base, run.events, run.s);
      RecoveredFiles(l, sb, run.log.cache.disk, P.Replay(l, run.base, run.s.history), fs.ip, fs.owner);
    }

    /** begin_op, writei and end_op, from the system call down to the disk: when it returns, the bytes are in the
        file, no other file has changed, and the disk holds all files so. None of the log_write calls panics, nor does
        the commit; only writei does, exactly if fewer blocks are free than the write still needs. */
    method Write(n: nat, src: seq<Byte>, off: Uint) returns (r: Io)
      requires Quiet() && n < |fs.ip| && |src| <= CHUNK && fs.ip[n].typ != T_DEV
      modifies run`events, run`s, run.log`n, run.log`block, run.log`view, run.log`pins, run.log`outstanding
      modifies run.log`committing, run.log.cache, fs`blk, fs`ip, fs`owner, fs`start, fs`writes
      ensures r.Error? <==> off > old(fs.ip)[n].size || off + |src| > MAXFILE * BSIZE
      ensures r.Error? ==> Quiet() && fs.blk == old(fs.blk) && fs.ip == old(fs.ip)
      ensures r.Done? ==> Quiet() && r.count == |src| && fs.ip[n].typ == old(fs.ip)[n].typ
      ensures r.Done? ==> Written(old(fs.blk), old(fs.ip), fs.blk, fs.ip, n, off, src)
      ensures !r.Panic? ==> forall m | 0 <= m < fs.sb.ninodes ::
                OnDisk(fs.sb, Image(run.log.lay, fs.sb, run.log.cache.disk), m) == Contents(fs.blk, fs.ip[m])
      ensures !r.Error? ==>
                (r.Panic? <==> FreeBlocks(fs.sb, old(fs.blk)) < Needed(old(fs.blk), old(fs.ip)[n], off, |src|))
      ensures r.Done? ==>
                SpentOver(fs.sb, old(fs.blk), old(fs.ip)[n], fs.blk, fs.ip[n], off / BSIZE, EndBlock(off, |src|))
    {
      fs.BeginOp();
      r := fs.Writei(n, src, off);
      if r.Panic? { return; }
      Log();
      forall m | 0 <= m < fs.sb.ninodes
        ensures OnDisk(fs.sb, Image(run.log.lay, fs.sb, run.log.cache.disk), m) == Contents(fs.blk, fs.ip[m])
      {
        DiskHolds(m);
      }
    }

    /** itrunc as an operation: the file is empty, its blocks are free, and the disk says so. A free map of fewer than
        MAXOPBLOCKS blocks leaves room for it, however many blocks the file has. */
    method Truncate(n: nat)
      requires Quiet() && n < |fs.ip| && MapBlocks(fs.sb) < MAXOPBLOCKS
      modifies run`events, run`s, run.log`n, run.log`block, run.log`view, run.log`pins, run.log`outstanding
      modifies run.log`committing, run.log.cache, fs`blk, fs`ip, fs`owner, fs`start, fs`writes
      ensures Quiet() && fs.ip == Truncated(old(fs.ip), n) && Contents(fs.blk, fs.ip[n]) == []
      ensures forall m | 0 <= m < |fs.ip| && m != n ::
                Contents(fs.blk, fs.ip[m]) == Contents(old(fs.blk), old(fs.ip)[m])
      ensures forall m | 0 <= m < fs.sb.ninodes ::
                OnDisk(fs.sb, Image(run.log.lay, fs.sb, run.log.cache.disk), m) == Contents(fs.blk, fs.ip[m])
    {
      fs.BeginOp();
      fs.Itrunc(n);
      assert Touched([]) == {};
      Log();
      forall m | 0 <= m < fs.sb.ninodes
        ensures OnDisk(fs.sb, Image(run.log.lay, fs.sb, run.log.cache.disk), m) == Contents(fs.blk, fs.ip[m])
      {
        DiskHolds(m);
      }
    }

    /** filewrite: one operation after the other, each for at most CHUNK bytes. It gives up at the first piece that
        writei refuses, which is the first if off is past the size, and else the one that would exceed the largest
        file; the pieces before it, `end` bytes in all, stay written. It panics exactly if fewer blocks are free than
        the accepted bytes need. */
    method Filewrite(n: nat, src: seq<Byte>, off: Uint) returns (r: Io, end: nat)
      requires Quiet() && n < |fs.ip| && off + |src| < WORD_LIMIT && fs.ip[n].typ != T_DEV
      modifies run`events, run`s, run.log`n, run.log`block, run.log`view, run.log`pins, run.log`outstanding
      modifies run.log`committing, run.log.cache, fs`blk, fs`ip, fs`owner, fs`start, fs`writes
      ensures !r.Panic? ==> end <= |src| && Quiet() && Sofar(old(fs.blk), old(fs.ip), fs.blk, fs.ip, n, off, src, end)
      ensures r.Done? ==> r.count == |src| == end
      ensures r.Error? ==>
                && (off > old(fs.ip)[n].size || off + |src| > MAXFILE * BSIZE)
                && end == (if off > old(fs.ip)[n].size then 0 else Accepted(off, |src|)) < |src|
      ensures r.Done? ==> src == [] || (off <= old(fs.ip)[n].size && off + |src| <= MAXFILE * BSIZE)
      ensures off <= old(fs.ip)[n].size ==>
                (r.Panic? <==>
                 FreeBlocks(fs.sb, old(fs.blk)) < Needed(old(fs.blk), old(fs.ip)[n], off, Accepted(off, |src|)))
      ensures off > old(fs.ip)[n].size ==> !r.Panic?
    {
      ghost var blk0, ip0, sb := fs.blk, fs.ip, fs.sb;
      ProgressNone(sb, blk0, ip0, n, off, src);
      if off <= ip0[n].size { TooFewNeeds(sb, blk0, ip0[n], off, |src|); }
      var i: nat := 0;
      while i < |src|
        invariant Quiet() && Progress(sb, blk0, ip0, fs.blk, fs.ip, n, off, src, i)
        invariant i > 0 ==> off <= ip0[n].size
      {
        var j: nat := if |src| - i > CHUNK then i + CHUNK else |src|;
        r := Piece(n, src, off, i, j, blk0, ip0);
        if r.Panic? { return r, i; }
        if r.Error? {
          ProgressEnds(sb, blk0, ip0, fs.blk, fs.ip, n, off, src, i);
          return r, i;
        }
        i := j;
      }
      ProgressEnds(sb, blk0, ip0, fs.blk, fs.ip, n, off, src, i);
      return Done(|src|), |src|;
    }

    /** The loop body of filewrite: one operation for the bytes from i to j. */
    method Piece(n: nat, src: seq<Byte>, off: nat, i: nat, j: nat, ghost blk0: Blocks, ghost ip0: seq<Inode>)
      returns (r: Io)
      requires Quiet() && i < |src| && j == PieceEnd(i, |src|) && off + |src| < WORD_LIMIT
      requires Progress(fs.sb, blk0, ip0, fs.blk, fs.ip, n, off, src, i) && ip0[n].typ != T_DEV
      modifies run`events, run`s, run.log`n, run.log`block, run.log`view, run.log`pins, run.log`outstanding
      modifies run.log`committing, run.log.cache, fs`blk, fs`ip, fs`owner, fs`start, fs`writes
      ensures r.Done? ==> Quiet() && Progress(fs.sb, blk0, ip0, fs.blk, fs.ip, n, off, src, j) && off <= ip0[n].size
      ensures r.Error? ==> Quiet() && fs.blk == old(fs.blk) && fs.ip == old(fs.ip)
      ensures r.Error? ==> off + i > fs.ip[n].size || off + j > MAXFILE * BSIZE
      ensures r.Panic? ==>
                DiskOk(fs.sb, blk0) && off <= ip0[n].size && TooFewFor(fs.sb, blk0, ip0[n], off, |src|)
    {
      var part, at := src[i..j], off + i;
      ghost var blk1, ip1, sb := fs.blk, fs.ip, fs.sb;
      SamePart(sb, blk0, ip0, blk1, ip1, n, off, src, i, j);
      r := Write(n, part, at);
      if r.Done? {
        ProgressMore(sb, blk0, ip0, blk1, ip1, fs.blk, fs.ip, n, off, src, i, j, part, at);
      } else if r.Panic? {
        ProgressShort(sb, blk0, ip0, blk1, ip1, n, off, src, i, j, part, at);
      }
    }

    lemma DurableNow(more: seq<P.Event>, t: P.State)
      requires Quiet() && P.Reached(run.log.lay, run.base, run.events + more, t)
      ensures t.committed >= |run.s.history|
    {
      assert Stages(0);
      P.OperationsAtomic(run.log.lay, run.base, run.events, run.s, []);
      P.DurableGrows(run.log.lay, run.base, run.events, run.s, more, t);
    }

    /** A crash while an operation op runs from here on: t is any state that the run may come to, with k of the calls
        w of op made and no other change. After any recoveries the disk holds all files as they are now, or all as
        they are when op is over. */
    lemma CrashDuring(more: seq<P.Event>, t: P.State, cuts: seq<nat>, op: nat, w: BlockWrites, k: nat,
                      ip1: seq<Inode>, owner1: Owner)
      requires Quiet() && P.Reached(run.log.lay, run.base, run.events + more, t)
      requires Underway(t, run.s.history, op, w, k) && Holds(fs.sb, Redo(fs.blk, w), ip1, owner1)
      ensures t.committed == |run.s.history| || k == |w|
      ensures var found := Image(run.log.lay, fs.sb, Recover(run.log.lay, t.disk, cuts));
              forall m | 0 <= m < fs.sb.ninodes ::
                OnDisk(fs.sb, found, m) ==
                  if t.committed == |run.s.history| then Contents(fs.blk, fs.ip[m])
                  else Contents(Redo(fs.blk, w), ip1[m])
    {
      DurableNow(more, t);
      FilesAtomic(run.log.lay, fs.sb, run.base, run.events + more, t, cuts, run.s.history, op, w, k, fs.ip, fs.owner,
                  ip1, owner1);
    }

    /** The log's part in an operation that is alone: begin_op, the calls, and end_op with its commit. */
    method Log()
      requires run.Live({}) && run.s.ops == [] && run.s.blocks == [] && Idle(run.log.cache.buf, {}) && Fits()
      requires fs.Valid() && fs.start == Current() && Frugal(fs.writes) && AtHome(fs.sb, {}, Touched(fs.writes))
      modifies run`events, run`s, run.log`n, run.log`block, run.log`view, run.log`pins, run.log`outstanding
      modifies run.log`committing, run.log.cache
      ensures Quiet()
    {
      ghost var h0 := run.s.history;
      HomeCalls(fs.sb, fs.writes);
      var admitted := run.Begin({});
      assert admitted;
      ghost var op := run.s.ops[0].id;
      Perform(0, fs.writes);
      FrugalSize(fs.writes);
      Close();
      assert ByLog(0);
      ReplayImage(run.log.lay, fs.sb, run.base, h0, op, fs.writes);
    }

    /** end_op of the only operation, and the commit. */
    method Close()
      requires run.Live({}) && Fits() && Idle(run.log.cache.buf, {}) && |run.s.ops| == 1 && |run.s.blocks| < NBUF
      modifies run`events, run`s, run.log`n, run.log`view, run.log`pins, run.log`outstanding
      modifies run.log`committing, run.log.cache
      ensures run.Live({}) && Fits() && Idle(run.log.cache.buf, {}) && run.s.ops == [] && run.s.blocks == []
      ensures run.s.history == old(run.s.history)
    {
      run.log.NoOthers({});
      run.StartCommit();
      var ok, k := run.DoCommit();
      assert ok;
    }
  }
}
