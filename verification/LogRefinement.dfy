/** The code of log.c runs as the protocol says: each call, with the disk writes it makes, is a sequence of protocol
    steps. So what is proved of every run of the protocol holds for the code. */
module LogRefinement {
  import opened BufferCache
  import opened Bytes
  import opened Crash
  import opened Guards
  import opened Log
  import opened Options
  import opened Params
  import opened Words
  import P = LogProtocol

  /** The protocol's history gives the home blocks of the block map. */
  ghost predicate SameView(l: Layout, base: Disk, s: P.State, view: View) {
    forall x: nat | Detail(x) :: forall id | id in view && id.dev == l.dev && !l.InLog(id) ::
      Read(P.Replay(l, base, s.history), id) == view[id]
  }

  ghost predicate Mirrors(l: Layout, base: Disk, s: P.State, disk: Disk, view: View, blocks: seq<nat>,
                          outstanding: nat) {
    && s.phase.Running? && s.disk == disk && s.blocks == blocks && |s.ops| == outstanding
    && SameView(l, base, s, view)
  }

  lemma WriteMirrors(l: Layout, base: Disk, s: P.State, view: View, i: nat, b: nat, data: Block)
    requires SameView(l, base, s, view) && P.Enabled(l, base, s, P.Write(i, b, data)) && l.At(b) in view
    ensures SameView(l, base, P.Next(l, base, s, P.Write(i, b, data)), view[l.At(b) := data])
  {
    assert Detail(0);
    var s' := P.Next(l, base, s, P.Write(i, b, data));
    assert s'.history[..|s'.history| - 1] == s.history;
  }

  /** What commit reads from the cache is what the protocol's history says. */
  lemma SameVals(l: Layout, base: Disk, s: P.State, view: View, blocks: seq<nat>)
    requires SameView(l, base, s, view) && HeaderOk(l, blocks, view.Keys) && s.blocks == blocks
    ensures P.VisibleVals(l, base, s) == ValsOf(l, blocks, view)
  {
    assert Stages(0);
    assert Detail(0);
    forall t | 0 <= t < |blocks|
      ensures Read(P.Replay(l, base, s.history), l.At(blocks[t])) == Read(view, l.At(blocks[t]))
    {
      assert !l.InLog(l.At(blocks[t])) && l.At(blocks[t]) in view;
    }
  }

  lemma NextWrite(l: Layout, base: Disk, s: P.State, next: nat)
    requires !s.phase.Running? && s.phase.k + 1 == next <= |s.phase.w|
    requires s.disk == After(s.phase.d0, s.phase.w, s.phase.k)
    ensures P.Enabled(l, base, s, P.DiskWrite)
    ensures var t := P.Next(l, base, s, P.DiskWrite);
            && t.phase == s.phase.(k := next) && t.disk == After(s.phase.d0, s.phase.w, next)
            && t.history == s.history && t.blocks == s.blocks && t.ops == s.ops
  {
    P.AfterNext(s.phase.d0, s.phase.w, s.phase.k);
  }

  /** The next disk write of a commit or a recovery is a step. */
  lemma OneWrite(l: Layout, base: Disk, events: seq<P.Event>, s: P.State, next: nat)
    returns (more: seq<P.Event>, t: P.State)
    requires P.Reached(l, base, events, s) && !s.phase.Running? && s.phase.k + 1 == next <= |s.phase.w|
    requires s.disk == After(s.phase.d0, s.phase.w, s.phase.k)
    ensures P.Reached(l, base, more, t) && more == events + [P.DiskWrite]
    ensures t.phase == s.phase.(k := next) && t.disk == After(s.phase.d0, s.phase.w, next)
    ensures t.history == s.history && t.blocks == s.blocks && t.ops == s.ops
  {
    NextWrite(l, base, s, next);
    t := P.Next(l, base, s, P.DiskWrite);
    more := P.ExtendRun(l, base, events, s, P.DiskWrite);
  }

  /** k disk writes of a commit are k steps. */
  lemma {:induction false} DiskSteps(l: Layout, base: Disk, events: seq<P.Event>, s: P.State, d0: Disk, w: Writes,
                                     k: nat)
    returns (more: seq<P.Event>, t: P.State)
    requires P.Reached(l, base, events, s) && s.phase == P.Committing(d0, w, 0) && s.disk == d0 && k <= |w|
    ensures P.Reached(l, base, more, t) && |more| == |events| + k
    ensures t.phase == P.Committing(d0, w, k) && t.disk == After(d0, w, k)
    ensures t.history == s.history && t.blocks == s.blocks && t.ops == s.ops
  {
    if k == 0 {
      more, t := events, s;
    } else {
      var es, u := DiskSteps(l, base, events, s, d0, w, k - 1);
      more, t := OneWrite(l, base, es, u, k);
    }
  }

  /** The steps of a commit of which k disk writes were done, and which then was finished or stopped. */
  lemma CommitSteps(l: Layout, base: Disk, events: seq<P.Event>, s: P.State, d0: Disk, w: Writes, k: nat, ok: bool)
    returns (more: seq<P.Event>, t: P.State)
    requires P.Reached(l, base, events, s) && s.phase == P.Committing(d0, w, 0) && s.disk == d0 && k <= |w|
    requires ok ==> k == |w|
    ensures P.Reached(l, base, more, t) && t.disk == After(d0, w, k) && t.history == s.history && t.ops == s.ops
    ensures if ok then t.phase.Running? && t.blocks == [] else t.phase == P.Committing(d0, w, k)
  {
    more, t := DiskSteps(l, base, events, s, d0, w, k);
    if ok {
      more := P.ExtendRun(l, base, more, t, P.Finish);
      t := P.Next(l, base, t, P.Finish);
    }
  }

  /** The last end_op starts the commit that the code makes. */
  lemma EndStarts(l: Layout, base: Disk, s: P.State, disk: Disk, view: View, blocks: seq<nat>, i: nat)
    requires Mirrors(l, base, s, disk, view, blocks, 1) && i < 1 && HeaderOk(l, blocks, view.Keys)
    requires Read(disk, l.Header()) == Read(view, l.Header())
    ensures P.Enabled(l, base, s, P.End(i))
    ensures var t := P.Next(l, base, s, P.End(i));
            && t.phase == P.Committing(disk, WritesOf(l, blocks, view), 0) && t.disk == disk
            && t.history == s.history && t.blocks == blocks && t.ops == []
  {
    assert Stages(0);
    SameVals(l, base, s, view, blocks);
  }

  lemma ViewKept(l: Layout, base: Disk, s: P.State, t: P.State, view: View, view': View)
    requires SameView(l, base, s, view) && t.history == s.history && SameHome(l, view, view')
    ensures SameView(l, base, t, view')
  {
    assert Detail(0);
  }

  /** The events lead to s. */
  ghost predicate Ran(l: Layout, base: Disk, events: seq<P.Event>, s: P.State) {
    forall x: nat | Stages(x) :: P.Reached(l, base, events, s)
  }

  lemma RanMore(l: Layout, base: Disk, events: seq<P.Event>, s: P.State, e: P.Event)
    requires Ran(l, base, events, s) && P.Enabled(l, base, s, e)
    ensures Ran(l, base, events + [e], P.Next(l, base, s, e))
  {
    assert Stages(0);
    var _ := P.ExtendRun(l, base, events, s, e);
  }

  lemma RanStart(l: Layout, base: Disk, s: P.State)
    requires P.Start(l, base, s)
    ensures Ran(l, base, [], s)
  {}

  /** log_write has room while the operation has changed fewer than MAXOPBLOCKS blocks, if the log is large enough. */
  lemma WriteFits(l: Layout, base: Disk, events: seq<P.Event>, s: P.State, i: nat, b: nat)
    requires Ran(l, base, events, s) && l.size > LOGSIZE && P.Allowed(l, s, i, b) && |s.ops[i].used| < MAXOPBLOCKS
    ensures P.HasRoom(l, s)
  {
    assert Stages(0);
    P.WhenFull(l, base, events, s, i, b);
  }

  /** The Write step that log_write makes, and when it makes one. */
  lemma WriteSteps(l: Layout, base: Disk, events: seq<P.Event>, s: P.State, disk: Disk, view: View, blocks: seq<nat>,
                   outstanding: nat, i: nat, b: nat, data: Block)
    requires Ran(l, base, events, s) && Mirrors(l, base, s, disk, view, blocks, outstanding)
    requires P.Allowed(l, s, i, b) && l.At(b) in view
    ensures l.size > LOGSIZE && |s.ops[i].used| < MAXOPBLOCKS ==> P.HasRoom(l, s)
    ensures var e := P.Write(i, b, data);
            P.HasRoom(l, s) ==>
              && P.Enabled(l, base, s, e) && Ran(l, base, events + [e], P.Next(l, base, s, e))
              && Mirrors(l, base, P.Next(l, base, s, e), disk, view[l.At(b) := data], Absorb(blocks, b), outstanding)
  {
    if l.size > LOGSIZE && |s.ops[i].used| < MAXOPBLOCKS {
      WriteFits(l, base, events, s, i, b);
    }
    if P.HasRoom(l, s) {
      WriteMirrors(l, base, s, view, i, b, data);
      RanMore(l, base, events, s, P.Write(i, b, data));
    }
  }

  /** What an operation has changed is listed, so a call for it again lists nothing new. */
  lemma WriteLists(l: Layout, base: Disk, events: seq<P.Event>, s: P.State, i: nat, b: nat)
    requires Ran(l, base, events, s) && l.size > 0 && i < |s.ops|
    ensures |Absorb(s.blocks, b)| <= |s.blocks| + if b in s.ops[i].used then 0 else 1
  {
    assert Stages(0);
    P.ReachedInv(l, base, events, s);
  }

  lemma RanCommit(l: Layout, base: Disk, events: seq<P.Event>, s: P.State, d0: Disk, w: Writes, k: nat, ok: bool)
    returns (more: seq<P.Event>, t: P.State)
    requires Ran(l, base, events, s) && s.phase == P.Committing(d0, w, 0) && s.disk == d0 && k <= |w|
    requires ok ==> k == |w|
    ensures Ran(l, base, more, t) && t.disk == After(d0, w, k) && t.history == s.history && t.ops == s.ops
    ensures if ok then t.phase.Running? && t.blocks == [] else t.phase == P.Committing(d0, w, k)
  {
    assert Stages(0);
    more, t := CommitSteps(l, base, events, s, d0, w, k, ok);
  }

  lemma Unchanged(l: Layout, base: Disk, s: P.State, t: P.State, view: View)
    requires SameView(l, base, s, view) && t.history == s.history
    ensures SameView(l, base, t, view)
  {
    assert Detail(0);
  }

  /** The lists of a log that holds nothing. */
  lemma NothingListed(l: Layout, keys: set<Id>, keys': set<Id>, blocks: seq<nat>, pins: Pins)
    requires HeaderOk(l, blocks, keys) && keys' == keys && pins == map[]
    ensures HeaderOk(l, [], keys') && PinsAre(l, [], pins)
  {
    assert Stages(0);
  }

  // ---------- a start from disk ----------

  /** What a boot finds: whatever step the run had reached when it ended, the header on disk is one that recovery can
      work with. */
  lemma BootHeader(l: Layout, base: Disk, events: seq<P.Event>, s: P.State, keys: set<Id>)
    requires Ran(l, base, events, s) && l.size > 0 && l.dev != 0 && forall id | l.InLog(id) :: id in keys
    requires forall b | b in HeadBlocks(Read(s.disk, l.Header())) :: l.At(b) in keys
    ensures var head := Read(s.disk, l.Header()); HeadN(head) <= LOGSIZE && HeaderOk(l, HeadBlocks(head), keys)
  {
    assert Stages(0);
    P.ReachedInv(l, base, events, s);
  }

  /** k disk writes of a recovery are k steps. */
  lemma {:induction false} RecoverySteps(l: Layout, base: Disk, events: seq<P.Event>, s: P.State, d0: Disk, w: Writes,
                                         k: nat)
    returns (more: seq<P.Event>, t: P.State)
    requires P.Reached(l, base, events, s) && s.phase == P.Recovering(d0, w, 0) && s.disk == d0 && k <= |w|
    ensures P.Reached(l, base, more, t) && |more| == |events| + k && events <= more
    ensures t.phase == P.Recovering(d0, w, k) && t.disk == After(d0, w, k)
    ensures t.history == s.history && t.ops == s.ops
  {
    if k == 0 {
      more, t := events, s;
    } else {
      var es, u := RecoverySteps(l, base, events, s, d0, w, k - 1);
      more, t := OneWrite(l, base, es, u, k);
    }
  }

  /** The run goes on with a crash and a recovery that completes. It ends with an empty log, and with the durable part
      of the history in place. */
  lemma RanReboot(l: Layout, base: Disk, events: seq<P.Event>, s: P.State, d: Disk)
    returns (more: seq<P.Event>, t: P.State)
    requires Ran(l, base, events, s) && l.size > 0
    requires d == After(s.disk, RecoverWrites(l, s.disk), |RecoverWrites(l, s.disk)|)
    ensures Ran(l, base, more, t) && events + [P.CrashNow] <= more
    ensures t.phase.Running? && t.blocks == [] && t.ops == [] && t.disk == d
    ensures s.committed <= |s.history| && t.history == s.history[..s.committed]
    ensures P.SameAs(l, d, P.Replay(l, base, t.history))
  {
    assert Stages(0);
    P.ReachedInv(l, base, events, s);
    more := P.ExtendRun(l, base, events, s, P.CrashNow);
    t := P.Next(l, base, s, P.CrashNow);
    more, t := RecoverySteps(l, base, more, t, s.disk, t.phase.w, |t.phase.w|);
    more := P.ExtendRun(l, base, more, t, P.Finish);
    t := P.Next(l, base, t, P.Finish);
    P.OperationsAtomic(l, base, more, t, []);
    QuietDisk(l, base, more, t);
  }

  /** With nothing listed and no commit due, the disk has all changes so far. */
  lemma QuietDisk(l: Layout, base: Disk, events: seq<P.Event>, s: P.State)
    requires P.Reached(l, base, events, s) && l.size > 0 && s.phase.Running? && s.blocks == []
    ensures P.SameAs(l, s.disk, P.Replay(l, base, s.history))
  {
    P.ReachedInv(l, base, events, s);
    P.RunningSame(l, s.disk, P.Durable(l, base, s));
    assert s.history[..|s.history|] == s.history;
  }

  lemma BootView(l: Layout, base: Disk, s: P.State, d: Disk, view: View)
    requires P.SameAs(l, d, P.Replay(l, base, s.history)) && view == d
    ensures SameView(l, base, s, view)
  {}

  lemma {:induction false} AfterKeys(d: Disk, w: Writes, k: nat)
    requires k <= |w| && forall i | 0 <= i < |w| :: w[i].0 in d
    ensures After(d, w, k).Keys == d.Keys
  {
    if k == 0 {
    } else {
      AfterKeys(d, w, k - 1);
      assert w[k - 1].0 in After(d, w, k - 1).Keys;
    }
  }

  /** Recovery writes blocks that are there. */
  lemma RecoverKeys(l: Layout, d: Disk)
    requires HeaderOk(l, HeadBlocks(Read(d, l.Header())), d.Keys)
    ensures var w := RecoverWrites(l, d); After(d, w, |w|).Keys == d.Keys
  {
    assert Stages(0);
    var w := RecoverWrites(l, d);
    assert l.InLog(l.Header());
    AfterKeys(d, w, |w|);
  }

  /** All that recovery gives. */
  lemma BootRun(l: Layout, base: Disk, events: seq<P.Event>, s: P.State, d: Disk)
    returns (more: seq<P.Event>, t: P.State)
    requires Ran(l, base, events, s) && l.size > 0 && HeaderOk(l, HeadBlocks(Read(s.disk, l.Header())), s.disk.Keys)
    requires d == After(s.disk, RecoverWrites(l, s.disk), |RecoverWrites(l, s.disk)|)
    ensures Ran(l, base, more, t) && events + [P.CrashNow] <= more && Mirrors(l, base, t, d, d, [], 0)
    ensures s.committed <= |s.history| && t.history == s.history[..s.committed]
    ensures d.Keys == s.disk.Keys && HeaderOk(l, [], d.Keys) && PinsAre(l, [], map[])
  {
    RecoverKeys(l, s.disk);
    more, t := RanReboot(l, base, events, s, d);
    BootView(l, base, t, d, d);
    NothingListed(l, s.disk.Keys, d.Keys, HeadBlocks(Read(s.disk, l.Header())), map[]);
  }

  /** bread finds the block in a buffer, or a buffer for it. */
  ghost predicate HasBuffer(buf: seq<Buf>, id: Id) {
    Cached(buf, id) || !AllTaken(buf)
  }

  /** The log code together with the protocol run that it has made. */
  class Run {
    const log: LogSystem
    ghost const base: Disk
    ghost var events: seq<P.Event>
    ghost var s: P.State

    /** The log's own conditions, with the buffers of held in use. */
    ghost predicate Sane(held: set<nat>)
      reads this, log, log.cache
    {
      && Ran(log.lay, base, events, s) && log.lay.size > 0 && log.Counted() && log.Ready(held)
      && HeaderOk(log.lay, log.Blocks(), log.view.Keys) && PinsAre(log.lay, log.Blocks(), log.pins)
    }

    /** Between calls. */
    ghost predicate Live(held: set<nat>)
      reads this, log, log.cache
    {
      && Sane(held) && !log.committing
      && Mirrors(log.lay, base, s, log.cache.disk, log.view, log.Blocks(), log.outstanding)
    }

    /** Before the first write of a commit. */
    ghost predicate Due()
      reads this, log, log.cache
    {
      && Sane({}) && log.outstanding == 0 && SameView(log.lay, base, s, log.view) && s.ops == []
      && s.phase == P.Committing(log.cache.disk, WritesOf(log.lay, log.Blocks(), log.view), 0)
      && s.disk == log.cache.disk
    }

    /** A log that is empty, on disk and in memory. */
    constructor (log: LogSystem)
      requires log.lay.size > 0 && log.n == 0 && log.outstanding == 0 && !log.committing && log.Counted()
      requires log.Ready({}) && log.pins == map[] && log.view == log.cache.disk && log.lay.dev != 0
      requires HeadN(Read(log.cache.disk, log.lay.Header())) == 0 && forall id | log.lay.InLog(id) :: id in log.view
      ensures this.log == log && Live({}) && events == [] && base == log.cache.disk
    {
      this.log, base := log, log.cache.disk;
      events, s := [], P.State(log.cache.disk, [], [], 0, P.Running, [], 0);
      RanStart(log.lay, log.cache.disk, P.State(log.cache.disk, [], [], 0, P.Running, [], 0));
    }

    /** A boot after a crash at whatever step of a run: a new cache and log over the disk that is found, and
        recover_from_log. The run goes on with the crash and the steps of this recovery, and has lost what was not
        durable. */
    constructor Reboot(log: LogSystem, ghost base: Disk, ghost events: seq<P.Event>, ghost s: P.State)
      requires Ran(log.lay, base, events, s) && log.lay.size > 0 && log.lay.dev != 0 && s.disk == log.cache.disk
      requires log.n == 0 && log.outstanding == 0 && !log.committing && log.Counted() && Idle(log.cache.buf, {})
      requires log.Ready({}) && log.pins == map[] && log.view == log.cache.disk
      requires forall id | log.lay.InLog(id) :: id in log.view
      requires forall b | b in HeadBlocks(Read(log.cache.disk, log.lay.Header())) :: log.lay.At(b) in log.view
      modifies log`view, log`pins, log`n, log`block, log.cache
      ensures this.log == log && this.base == base && Live({}) && events + [P.CrashNow] <= this.events
      ensures s.committed <= |s.history| && this.s.history == s.history[..s.committed]
      ensures this.s.blocks == [] && this.s.ops == [] && log.cache.disk.Keys == old(log.cache.disk).Keys
    {
      this.log, this.base, this.events, this.s := log, base, events, s;
      new;
      BootHeader(log.lay, base, events, s, log.view.Keys);
      assert log.lay.InLog(log.lay.Header());
      log.NoOthers({});
      var ok, k := log.RecoverFromLog();
      assert log.view == log.cache.disk by { assert Detail(0); }
      this.events, this.s := BootRun(log.lay, base, events, s, log.cache.disk);
      assert log.Blocks() == [];
    }

    /** begin_op, one pass: a Begin step if admitted, and admitted exactly if the protocol is ready for one. */
    method Begin(ghost held: set<nat>) returns (admitted: bool)
      requires Live(held)
      modifies this`events, this`s, log`outstanding
      ensures Live(held)
      ensures admitted <==> P.Enabled(log.lay, base, old(s), P.Begin)
      ensures if admitted then events == old(events) + [P.Begin] && s == P.Next(log.lay, base, old(s), P.Begin)
              else events == old(events) && s == old(s)
    {
      admitted := log.BeginOp();
      if admitted {
        RanMore(log.lay, base, events, s, P.Begin);
        events, s := events + [P.Begin], P.Next(log.lay, base, s, P.Begin);
        Unchanged(log.lay, base, old(s), s, log.view);
      }
    }

    /** log_write of one of the at most MAXOPBLOCKS blocks of an operation: a Write step, unless it panics for want of
        room. It has room if the log is larger than LOGSIZE and the operation has changed fewer blocks before. */
    method Write(i: nat, b: nat, ghost held: set<nat>) returns (ok: bool)
      requires Live(held) && b < NBUF && b in held && P.Allowed(log.lay, s, i, log.cache.buf[b].id.blockno)
      requires log.cache.buf[b].valid && log.cache.buf[b].id.dev == log.lay.dev && log.cache.buf[b].id in log.view
      modifies this`events, this`s, log`n, log`block, log`view, log`pins, log.cache`buf
      ensures Live(held) && (ok <==> P.HasRoom(log.lay, old(s)))
      ensures log.lay.size > LOGSIZE && |old(s).ops[i].used| < MAXOPBLOCKS ==> ok
      ensures ok ==> log.view == old(log.view)[old(log.cache.buf)[b].id := old(log.cache.buf)[b].data]
      ensures ok ==> log.cache.buf == old(log.cache.buf)[b := old(log.cache.buf)[b].(dirty := true)]
      ensures var e := P.Write(i, old(log.cache.buf)[b].id.blockno, old(log.cache.buf)[b].data);
              if ok then events == old(events) + [e] && P.Enabled(log.lay, base, old(s), e) &&
                         s == P.Next(log.lay, base, old(s), e)
              else events == old(events) && s == old(s)
    {
      ghost var no, data := log.cache.buf[b].id.blockno, log.cache.buf[b].data;
      ghost var e := P.Write(i, no, data);
      WriteSteps(log.lay, base, events, s, log.cache.disk, log.view, log.Blocks(), log.outstanding, i, no, data);
      ok := log.LogWrite(b, held);
      if ok {
        events, s := events + [e], P.Next(log.lay, base, s, e);
      }
    }

    /** With no buffer in use, and room in the log, bread finds a buffer for any block. */
    lemma BufferLeft(id: Id)
      requires Live({}) && Idle(log.cache.buf, {}) && P.HasRoom(log.lay, s)
      ensures HasBuffer(log.cache.buf, id)
    {
      assert Detail(0);
      FewPins(log.lay, log.Blocks(), log.pins);
      var i :| IsSpare(log.pins, i);
      SpareReusable(log.cache.buf, log.cache.disk, log.view, log.pins, {}, i);
    }

    /** A process that only reads, and so needs no operation: its bread and brelse, at any time between calls, are no
        step of the protocol. */
    method ReaderBread(id: Id, ghost held: set<nat>) returns (r: Option<nat>)
      requires Live(held) && id.dev != 0 && id in log.view && log.Free(id)
      requires forall b | b in held :: 0 <= b < NBUF && log.cache.buf[b].id != id
      modifies log`others, log.cache
      ensures Live(held)
      ensures r.Some? ==> r.value < NBUF && log.others == old(log.others)[r.value := id]
      ensures r.Some? ==> log.cache.buf[r.value].data == log.view[id]
      ensures r.Some? <==> HasBuffer(old(log.cache.buf), id)
    {
      r := log.ReaderBread(id, held);
    }

    method ReaderBrelse(b: nat, ghost held: set<nat>)
      requires Live(held) && b in log.others && b < NBUF && log.others[b].dev != 0 && log.others[b] in log.view
      requires log.cache.buf[b].data == log.view[log.others[b]]
      modifies log`others, log.cache
      ensures Live(held) && log.others == old(log.others) - {b}
    {
      log.ReaderBrelse(b, held);
    }

    /** What an operation does to change block x: bread, the change, log_write and brelse. It is a Write step and
        changes the block map there alone. False is a panic: bread finds no buffer, or log_write has no room. */
    method Put(i: nat, x: nat, v: Block, ghost held: set<nat>) returns (ok: bool)
      requires Live(held) && P.Allowed(log.lay, s, i, x) && log.lay.dev != 0 && log.lay.At(x) in log.view
      requires log.Free(log.lay.At(x))
      requires forall b | b in held :: 0 <= b < NBUF && log.cache.buf[b].id != log.lay.At(x)
      modifies this`events, this`s, log`n, log`block, log`view, log`pins, log.cache
      ensures ok <==> P.HasRoom(log.lay, old(s)) && HasBuffer(old(log.cache.buf), log.lay.At(x))
      ensures ok ==> Live(held) && log.view == old(log.view)[log.lay.At(x) := v]
      ensures var e := P.Write(i, x, v);
              ok ==> events == old(events) + [e] && P.Enabled(log.lay, base, old(s), e) &&
                     s == P.Next(log.lay, base, old(s), e)
      ensures Idle(old(log.cache.buf), held) && ok ==> Idle(log.cache.buf, held)
    {
      var id := log.lay.At(x);
      var b := log.Acquire(id, held);
      if b.None? { return false; }
      ghost var held' := held + {b.value};
      log.Edit(b.value, v, held');
      ok := Write(i, b.value, held');
      if ok {
        log.Release(b.value, held');
        assert held' - {b.value} == held;
      }
    }

    /** end_op of one of several operations: an End step. */
    method End(i: nat, ghost held: set<nat>)
      requires Live(held) && i < |s.ops| && log.outstanding > 1
      modifies this`events, this`s, log`outstanding, log`committing
      ensures Live(held) && events == old(events) + [P.End(i)] && s == P.Next(log.lay, base, old(s), P.End(i))
    {
      RanMore(log.lay, base, events, s, P.End(i));
      var last := log.EndOp();
      events, s := events + [P.End(i)], P.Next(log.lay, base, s, P.End(i));
      Unchanged(log.lay, base, old(s), s, log.view);
    }

    /** end_op of the last operation, up to the commit: an End step. */
    method StartCommit()
      requires Live({}) && log.outstanding == 1
      modifies this`events, this`s, log`outstanding, log`committing
      ensures Due() && events == old(events) + [P.End(0)] && s == P.Next(log.lay, base, old(s), P.End(0))
    {
      log.SameHeader();
      EndStarts(log.lay, base, s, log.cache.disk, log.view, log.Blocks(), 0);
      RanMore(log.lay, base, events, s, P.End(0));
      var last := log.EndOp();
      events, s := events + [P.End(0)], P.Next(log.lay, base, s, P.End(0));
      Unchanged(log.lay, base, old(s), s, log.view);
    }

    /** The commit: one step for each of the k disk writes that it makes, and a Finish step unless it stops for want
        of a buffer, where none can be reused. */
    method DoCommit() returns (ok: bool, ghost k: nat)
      requires Due() && log.Clear(log.Blocks())
      modifies this`events, this`s, log`committing, log`view, log`pins, log`n, log.cache
      ensures Ran(log.lay, base, events, s) && s.disk == log.cache.disk && s.history == old(s).history
      ensures ok ==> Live({}) && s.blocks == [] && s.ops == [] && log.view.Keys == old(log.view).Keys
      ensures !ok ==> s.phase.Committing? && s.phase.k == k && AllTaken(log.cache.buf)
      ensures Idle(old(log.cache.buf), {}) ==> (ok <==> old(log.n) < NBUF) && (ok ==> Idle(log.cache.buf, {}))
    {
      ghost var blocks, view := log.Blocks(), log.view;
      ok, k := log.Commit();
      events, s := RanCommit(log.lay, base, events, s, old(log.cache.disk), old(s).phase.w, k, ok);
      if ok {
        ViewKept(log.lay, base, old(s), s, view, log.view);
        Rest(blocks, view.Keys);
      }
    }

    /** The end of end_op. */
    method Rest(ghost blocks: seq<nat>, ghost keys: set<Id>)
      requires Ran(log.lay, base, events, s) && log.lay.size > 0 && log.Ready({}) && log.Counted()
      requires log.n == log.outstanding == 0 && log.pins == map[] && HeaderOk(log.lay, blocks, keys)
      requires keys == log.view.Keys
      requires s.phase.Running? && s.blocks == [] && s.ops == [] && s.disk == log.cache.disk
      requires SameView(log.lay, base, s, log.view)
      modifies log`committing
      ensures Live({})
    {
      log.CommitDone();
      NothingListed(log.lay, keys, log.view.Keys, blocks, log.pins);
      assert log.Blocks() == [];
    }

    /** What a crash at this point leaves, after any recoveries: the home blocks of the durable part of the history. It
        holds all changes of an operation or none, and all changes so far if no commit is due. */
    lemma CrashSafe(cuts: seq<nat>)
      requires Ran(log.lay, base, events, s) && log.lay.size > 0 && s.disk == log.cache.disk
      ensures s.committed <= |s.history|
      ensures P.SameAs(log.lay, Recover(log.lay, log.cache.disk, cuts),
              P.Replay(log.lay, base, s.history[..s.committed]))
      ensures forall i, j | 0 <= i < s.committed <= j < |s.history| :: s.history[i].op != s.history[j].op
      ensures s.phase.Running? && s.blocks == [] ==> s.committed == |s.history|
    {
      assert Stages(0);
      P.OperationsAtomic(log.lay, base, events, s, cuts);
    }
  }
}
