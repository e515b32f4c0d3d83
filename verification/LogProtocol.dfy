/** Any interleaving of file-system operations, group commits, crashes and recoveries. Each locked section of log.c and
    each single-block disk write is one step. The history lists every log_write since mkfs that has not been lost. */
module LogProtocol {
  import opened BufferCache
  import opened Bytes
  import opened Crash
  import opened Guards
  import opened Log
  import opened Params
  import opened Words

  /** One log_write: by which operation, of which block, with which contents. */
  datatype Change = Change(op: nat, block: nat, data: Block)

  /** An operation between begin_op and end_op, with the blocks for which it has called log_write. */
  datatype Op = Op(id: nat, used: set<nat>)

  datatype Phase =
    | Running
    | Committing(d0: Disk, w: Writes, k: nat)
    | Recovering(d0: Disk, w: Writes, k: nat)

  datatype State = State(
    disk: Disk,
    blocks: seq<nat>,      // lh.block[..lh.n]
    ops: seq<Op>,          // the open operations; log.outstanding is their number
    nextOp: nat,
    phase: Phase,
    history: seq<Change>,
    committed: nat)        // how much of the history the last header write made durable

  datatype Event =
    | Begin
    | Write(i: nat, block: nat, data: Block)
    | End(i: nat)
    | DiskWrite
    | Finish
    | CrashNow

  /** The home blocks after the given changes to what mkfs left: what bread returns. */
  function Replay(l: Layout, base: Disk, h: seq<Change>): (d: Disk) {
    if h == [] then base
    else Replay(l, base, h[..|h| - 1])[l.At(h[|h| - 1].block) := h[|h| - 1].data]
  }

  ghost function VisibleVals(l: Layout, base: Disk, s: State): (v: seq<Block>) {
    ValsOf(l, s.blocks, Replay(l, base, s.history))
  }

  /** Operation i may call log_write for home block b: it changes at most MAXOPBLOCKS different blocks, as often as it
      likes. */
  predicate Allowed(l: Layout, s: State, i: nat, b: nat) {
    && s.phase.Running? && i < |s.ops| && |s.ops[i].used + {b}| <= MAXOPBLOCKS
    && b < WORD_LIMIT && !l.InLog(l.At(b))
  }

  /** log_write's test for a transaction that is too big; it comes before the search for the block in the list. */
  predicate HasRoom(l: Layout, s: State) {
    |s.blocks| < LOGSIZE && |s.blocks| < l.size - 1
  }

  ghost predicate Enabled(l: Layout, base: Disk, s: State, e: Event) {
    match e
    case Begin => s.phase.Running? && |s.blocks| + (|s.ops| + 1) * MAXOPBLOCKS <= LOGSIZE
    // without room log_write panics, and the run ends
    case Write(i, b, _) => Allowed(l, s, i, b) && HasRoom(l, s)
    case End(i) => i < |s.ops| && s.phase.Running?
    case DiskWrite => !s.phase.Running? && s.phase.k < |s.phase.w|
    case Finish => !s.phase.Running? && s.phase.k == |s.phase.w|
    case CrashNow => true
  }

  ghost function Next(l: Layout, base: Disk, s: State, e: Event): (s': State)
    requires Enabled(l, base, s, e)
  {
    match e
    case Begin =>
      s.(ops := s.ops + [Op(s.nextOp, {})], nextOp := s.nextOp + 1)
    case Write(i, b, data) =>
      s.(blocks := Absorb(s.blocks, b), ops := s.ops[i := s.ops[i].(used := s.ops[i].used + {b})],
         history := s.history + [Change(s.ops[i].id, b, data)])
    case End(i) =>
      var ops := s.ops[..i] + s.ops[i + 1..];
      if ops != [] then s.(ops := ops)
      else s.(ops := ops, phase := Committing(s.disk, CommitOf(l, base, s, Read(s.disk, l.Header())), 0))
    case DiskWrite =>
      var w, k := s.phase.w, s.phase.k;
      var disk := s.disk[w[k].0 := w[k].1];
      if s.phase.Recovering? then s.(disk := disk, phase := Recovering(s.phase.d0, w, k + 1))
      else s.(disk := disk, phase := Committing(s.phase.d0, w, k + 1),
              committed := if k == |s.blocks| then |s.history| else s.committed)
    case Finish =>
      s.(phase := Running, blocks := [])
    case CrashNow =>
      s.(blocks := [], ops := [], history := s.history[..Min(s.committed, |s.history|)],
         phase := Recovering(s.disk, RecoverWrites(l, s.disk), 0))
  }

  /** The disk writes of the commit that end_op starts: none if nothing is listed. In every run the header lists a
      Transaction. */
  ghost function CommitOf(l: Layout, base: Disk, s: State, head: Block): (w: Writes) {
    if s.blocks == [] || !Transaction(l, s.blocks) then []
    else CommitWrites(l, head, s.blocks, VisibleVals(l, base, s))
  }

  // ---------- what a disk is good for ----------

  ghost predicate SameAs(l: Layout, d: Disk, want: Disk) {
    forall id | !l.InLog(id) :: Read(d, id) == Read(want, id)
  }

  /** Recovering from d yields the home blocks of `want`: the listed blocks hold, in the log, what is wanted, and
      every other home block already does. */
  ghost predicate Recoverable(l: Layout, d: Disk, want: Disk) {
    forall x: nat | Stages(x) ::
      var head := Read(d, l.Header());
      && Transaction(l, HeadBlocks(head)) && HeadN(head) == |HeadBlocks(head)|
      && (forall t | 0 <= t < HeadN(head) :: Read(d, l.Slot(t)) == Read(want, l.At(HeadBlocks(head)[t])))
      && Untouched(l, want, HeadBlocks(head), d)
  }

  /** Recovery delivers: from a recoverable disk, any number of crashing recoveries and one that completes give
      exactly the wanted home blocks and an empty log. */
  lemma RecoverableRecovers(l: Layout, d: Disk, want: Disk, cuts: seq<nat>)
    requires l.size > 0 && Recoverable(l, d, want)
    ensures SameAs(l, Recover(l, d, cuts), want) && HeadN(Read(Recover(l, d, cuts), l.Header())) == 0
  {
    assert Stages(0);
    var blocks := HeadBlocks(Read(d, l.Header()));
    var vals, e := LoggedVals(l, d), Recover(l, d, cuts);
    RecoverCommitted(l, want, blocks, vals, d, cuts);
    WantedInPlace(l, blocks, vals, want, e);
  }

  lemma WantedInPlace(l: Layout, blocks: seq<nat>, vals: seq<Block>, want: Disk, d: Disk)
    requires |vals| == |blocks| && New(l, want, blocks, vals, d)
    requires forall t | 0 <= t < |blocks| :: vals[t] == Read(want, l.At(blocks[t]))
    ensures SameAs(l, d, want)
  {
    forall id | !l.InLog(id) ensures Read(d, id) == Read(want, id) {
      if id.dev == l.dev && id.blockno in blocks {
        var t :| 0 <= t < |blocks| && blocks[t] == id.blockno;
        assert id == l.At(blocks[t]);
      }
    }
  }

  /** Part of the way through a commit the disk is recoverable: to the state before it up to and including write
      number n, to the state after it from the header write on. */
  lemma StageRecoverable(l: Layout, d0: Disk, blocks: seq<nat>, vals: seq<Block>, k: nat, d: Disk, was: Disk,
                         want: Disk)
    requires Transaction(l, blocks) && |vals| == |blocks| && Stage(l, d0, blocks, vals, k, d)
    requires Untouched(l, want, blocks, d0)
    requires forall t | 0 <= t < |blocks| :: vals[t] == Read(want, l.At(blocks[t]))
    requires k <= |blocks| ==> SameAs(l, d0, was)
    ensures Recoverable(l, d, if k <= |blocks| then was else want)
    ensures k > 2 * |blocks| + 1 ==> HeadN(Read(d, l.Header())) == 0
  {
    if k > 2 * |blocks| + 1 {
      assert Untouched(l, want, blocks, d);
      WantedInPlace(l, blocks, vals, want, d);
    }
  }

  /** The same for a recovery. */
  lemma RecoveryRecoverable(l: Layout, d0: Disk, k: nat, want: Disk)
    requires l.size > 0 && Recoverable(l, d0, want) && k <= |RecoverWrites(l, d0)|
    ensures Recoverable(l, After(d0, RecoverWrites(l, d0), k), want)
    ensures k == |RecoverWrites(l, d0)| ==> HeadN(Read(After(d0, RecoverWrites(l, d0), k), l.Header())) == 0
  {
    assert Stages(0);
    var blocks, vals := HeadBlocks(Read(d0, l.Header())), LoggedVals(l, d0);
    RecoverShape(l, want, blocks, vals, d0);
    RecoverStages(l, want, blocks, vals, d0, RecoverWrites(l, d0), k);
    var d := After(d0, RecoverWrites(l, d0), k);
    if k <= |blocks| {
      assert LoggedVals(l, d) == vals;
    } else {
      WantedInPlace(l, blocks, vals, want, d);
    }
  }

  // ---------- log space ----------

  function Reserved(ops: seq<Op>): (r: int) {
    if ops == [] then 0 else Reserved(ops[..|ops| - 1]) + MAXOPBLOCKS - |ops[|ops| - 1].used|
  }

  ghost predicate WithinBudget(ops: seq<Op>) {
    forall i | 0 <= i < |ops| :: |ops[i].used| <= MAXOPBLOCKS
  }

  lemma OneMoreBlock(used: set<nat>, b: nat)
    ensures |used + {b}| == |used| + if b in used then 0 else 1
  {
    if b in used {
      assert used + {b} == used;
    }
  }

  lemma {:induction false} ReservedWrite(ops: seq<Op>, i: nat, b: nat)
    requires i < |ops|
    ensures Reserved(ops[i := ops[i].(used := ops[i].used + {b})]) ==
            Reserved(ops) - if b in ops[i].used then 0 else 1
    decreases |ops|
  {
    var ops' := ops[i := ops[i].(used := ops[i].used + {b})];
    OneMoreBlock(ops[i].used, b);
    var last := |ops| - 1;
    if i < last {
      ReservedWrite(ops[..last], i, b);
      assert ops'[..last] == ops[..last][i := ops[i].(used := ops[i].used + {b})];
    } else {
      assert ops'[..last] == ops[..last];
    }
  }

  lemma {:induction false} ReservedEnd(ops: seq<Op>, i: nat)
    requires i < |ops|
    ensures Reserved(ops[..i] + ops[i + 1..]) == Reserved(ops) - MAXOPBLOCKS + |ops[i].used|
    decreases |ops|
  {
    var last := |ops| - 1;
    if i < last {
      ReservedEnd(ops[..last], i);
      assert (ops[..i] + ops[i + 1..])[..last - 1] == ops[..last][..i] + ops[..last][i + 1..];
    } else {
      assert ops[..i] + ops[i + 1..] == ops[..last];
    }
  }

  lemma {:induction false} ReservedBounds(ops: seq<Op>, i: nat)
    requires WithinBudget(ops) && i < |ops|
    ensures MAXOPBLOCKS - |ops[i].used| <= Reserved(ops) <= |ops| * MAXOPBLOCKS
    decreases |ops|
  {
    var last := |ops| - 1;
    if last == 0 {
    } else {
      ReservedBounds(ops[..last], if i < last then i else 0);
      if i == last {
        assert Reserved(ops[..last]) >= MAXOPBLOCKS - |ops[0].used|;
      }
    }
  }

  // ---------- the invariant of every run ----------

  ghost function View(l: Layout, base: Disk, s: State): (d: Disk) {
    Replay(l, base, s.history)
  }

  ghost function Durable(l: Layout, base: Disk, s: State): (d: Disk)
    requires s.committed <= |s.history|
  {
    Replay(l, base, s.history[..s.committed])
  }

  /** The listed blocks and the room that the open operations may still need fit into LOGSIZE, and what those operations
      have written is listed. */
  ghost predicate SpaceOk(s: State) {
    && WithinBudget(s.ops) && |s.blocks| + Reserved(s.ops) <= LOGSIZE
    && forall i, b | 0 <= i < |s.ops| && b in s.ops[i].used :: b in s.blocks
  }

  /** Operations are told apart, and none has changes on both sides of the commit point. */
  ghost predicate OpsOk(s: State) {
    && s.committed <= |s.history|
    && (forall j | 0 <= j < |s.history| :: s.history[j].op < s.nextOp)
    && (forall i | 0 <= i < |s.ops| :: s.ops[i].id < s.nextOp)
    && (forall i, j | 0 <= i < |s.ops| && 0 <= j < s.committed :: s.history[j].op != s.ops[i].id)
    && (forall i, j | 0 <= i < s.committed <= j < |s.history| :: s.history[i].op != s.history[j].op)
  }

  /** What is not durable yet is listed in the header. */
  ghost predicate PendingListed(s: State) {
    && (forall j | 0 <= s.committed <= j < |s.history| :: s.history[j].block in s.blocks)
    && (s.blocks == [] ==> s.committed == |s.history|)
  }

  ghost predicate PhaseOk(l: Layout, base: Disk, s: State)
    requires s.committed <= |s.history|
  {
    match s.phase
    case Running =>
      PendingListed(s) && HeadN(Read(s.disk, l.Header())) == 0
    case Committing(d0, w, k) =>
      && s.ops == []
      && HeadN(Read(d0, l.Header())) == 0
      && Untouched(l, View(l, base, s), s.blocks, d0)
      && w == CommitOf(l, base, s, Read(d0, l.Header()))
      && k <= |w| && s.disk == After(d0, w, k)
      && (if w != [] && k <= |s.blocks| then SameAs(l, d0, Durable(l, base, s)) else s.committed == |s.history|)
    case Recovering(d0, w, k) =>
      && s.ops == [] && s.blocks == [] && s.committed == |s.history|
      && Recoverable(l, d0, View(l, base, s))
      && w == RecoverWrites(l, d0) && k <= |w| && s.disk == After(d0, w, k)
  }

  ghost predicate Inv(l: Layout, base: Disk, s: State) {
    && SpaceOk(s) && OpsOk(s) && Transaction(l, s.blocks)
    && Recoverable(l, s.disk, Durable(l, base, s))
    && PhaseOk(l, base, s)
  }

  /** A block that no change after the first c touches is as those c changes left it. */
  lemma {:induction false} ReplayRest(l: Layout, base: Disk, h: seq<Change>, c: nat, id: Id)
    requires c <= |h| && forall j | c <= j < |h| :: l.At(h[j].block) != id
    ensures Read(Replay(l, base, h), id) == Read(Replay(l, base, h[..c]), id)
    decreases |h|
  {
    if c == |h| {
      assert h[..c] == h;
    } else {
      var front := h[..|h| - 1];
      ReplayRest(l, base, front, c, id);
      assert front[..c] == h[..c];
    }
  }

  lemma PendingUntouched(l: Layout, base: Disk, s: State, d: Disk)
    requires s.committed <= |s.history| && PendingListed(s) && SameAs(l, d, Durable(l, base, s))
    ensures Untouched(l, View(l, base, s), s.blocks, d)
  {
    forall id | !l.InLog(id) && !(id.dev == l.dev && id.blockno in s.blocks)
      ensures Read(d, id) == Read(View(l, base, s), id)
    {
      forall j | s.committed <= j < |s.history| ensures l.At(s.history[j].block) != id {
        assert s.history[j].block in s.blocks;
      }
      ReplayRest(l, base, s.history, s.committed, id);
    }
  }

  /** What k writes of a commit leave recovers to what was there, or to what is wanted. */
  lemma CommitRecoverable(l: Layout, d0: Disk, blocks: seq<nat>, vals: seq<Block>, w: Writes, k: nat, was: Disk,
                          want: Disk)
    requires Transaction(l, blocks) && |vals| == |blocks| && HeadN(Read(d0, l.Header())) == 0
    requires w == CommitWrites(l, Read(d0, l.Header()), blocks, vals) && k <= |w|
    requires Untouched(l, want, blocks, d0) && forall t | 0 <= t < |blocks| :: vals[t] == Read(want, l.At(blocks[t]))
    requires k <= |blocks| ==> SameAs(l, d0, was)
    ensures |w| == 2 * |blocks| + 2
    ensures Recoverable(l, After(d0, w, k), if k <= |blocks| then was else want)
    ensures k == |w| ==> HeadN(Read(After(d0, w, k), l.Header())) == 0
  {
    var head := Read(d0, l.Header());
    var h := HeaderFor(head, blocks);
    CommitWritesShape(l, head, blocks, vals);
    CommitStages(l, d0, blocks, vals, w, h, Emptied(h), k);
    StageRecoverable(l, d0, blocks, vals, k, After(d0, w, k), was, want);
  }

  /** Where a commit of listed blocks stands. */
  lemma CommitPoint(l: Layout, base: Disk, s: State, k: nat, want: Disk)
    requires Transaction(l, s.blocks) && s.blocks != [] && s.phase.Committing?
    requires s.committed <= |s.history| && PhaseOk(l, base, s) && k <= |s.phase.w|
    requires k <= |s.blocks| ==> SameAs(l, s.phase.d0, Durable(l, base, s))
    requires want == if k <= |s.blocks| then Durable(l, base, s) else View(l, base, s)
    ensures |s.phase.w| == 2 * |s.blocks| + 2 && Recoverable(l, After(s.phase.d0, s.phase.w, k), want)
    ensures k == |s.phase.w| ==> HeadN(Read(After(s.phase.d0, s.phase.w, k), l.Header())) == 0
  {
    CommitRecoverable(l, s.phase.d0, s.blocks, VisibleVals(l, base, s), s.phase.w, k, Durable(l, base, s),
      View(l, base, s));
  }

  lemma BeginInv(l: Layout, base: Disk, s: State)
    requires Inv(l, base, s) && Enabled(l, base, s, Begin)
    ensures Inv(l, base, Next(l, base, s, Begin))
  {
    var s' := Next(l, base, s, Begin);
    assert s'.ops[..|s.ops|] == s.ops;
    if s.ops != [] {
      ReservedBounds(s.ops, 0);
    }
  }

  lemma WriteInv(l: Layout, base: Disk, s: State, i: nat, b: nat, data: Block)
    requires Inv(l, base, s) && Enabled(l, base, s, Write(i, b, data))
    ensures Inv(l, base, Next(l, base, s, Write(i, b, data)))
  {
    var s' := Next(l, base, s, Write(i, b, data));
    ReservedBounds(s.ops, i);
    ReservedWrite(s.ops, i, b);
    assert s'.history[..s.committed] == s.history[..s.committed];
    assert OpsOk(s') && SpaceOk(s') && Transaction(l, s'.blocks);
  }

  /** end_op of the last open operation starts a commit. */
  lemma CommitStarts(l: Layout, base: Disk, s: State, ops: seq<Op>)
    requires Inv(l, base, s) && s.phase.Running? && ops == []
    ensures Inv(l, base, s.(ops := ops, phase := Committing(s.disk, CommitOf(l, base, s, Read(s.disk, l.Header())), 0)))
  {
    var s' := s.(ops := ops, phase := Committing(s.disk, CommitOf(l, base, s, Read(s.disk, l.Header())), 0));
    RunningSame(l, s.disk, Durable(l, base, s));
    PendingUntouched(l, base, s, s.disk);
    assert View(l, base, s') == View(l, base, s) && Durable(l, base, s') == Durable(l, base, s);
    assert PhaseOk(l, base, s');
    if s.ops != [] {
      ReservedBounds(s.ops, 0);
    }
  }

  lemma EndKeepsOps(s: State, i: nat)
    requires OpsOk(s) && SpaceOk(s) && i < |s.ops|
    ensures var s' := s.(ops := s.ops[..i] + s.ops[i + 1..]); OpsOk(s') && SpaceOk(s')
  {
    ReservedEnd(s.ops, i);
  }

  lemma EndInv(l: Layout, base: Disk, s: State, i: nat)
    requires Inv(l, base, s) && Enabled(l, base, s, End(i))
    ensures Inv(l, base, Next(l, base, s, End(i)))
  {
    var ops := s.ops[..i] + s.ops[i + 1..];
    if ops == [] {
      CommitStarts(l, base, s, ops);
    } else {
      EndKeepsOps(s, i);
    }
  }

  /** With an empty log, recoverable means in place. */
  lemma RunningSame(l: Layout, d: Disk, want: Disk)
    requires Recoverable(l, d, want) && HeadN(Read(d, l.Header())) == 0
    ensures SameAs(l, d, want)
  {
    assert Stages(0);
    assert HeadBlocks(Read(d, l.Header())) == [];
  }

  /** The visible and the durable state depend on the history alone, and meet when all of it is committed. */
  lemma SameStates(l: Layout, base: Disk, s: State, s': State)
    requires s'.history == s.history && s'.blocks == s.blocks && s.committed <= |s.history|
    requires s'.committed == s.committed || s'.committed == |s.history|
    ensures View(l, base, s') == View(l, base, s) && VisibleVals(l, base, s') == VisibleVals(l, base, s)
    ensures s'.committed == s.committed ==> Durable(l, base, s') == Durable(l, base, s)
    ensures s'.committed == |s.history| ==> Durable(l, base, s') == View(l, base, s)
  {
    assert s.history[..|s.history|] == s.history;
  }

  lemma AllDurableOps(s: State, c: nat)
    requires OpsOk(s) && s.ops == [] && (c == s.committed || c == |s.history|)
    ensures OpsOk(s.(committed := c))
  {}

  /** A commit after one more write, its number `next`; the header write makes the whole history durable. */
  ghost predicate OneMore(s: State, s': State, d0: Disk, w: Writes, k: nat, next: nat) {
    && s.phase == Committing(d0, w, k) && k + 1 == next <= |w|
    && s' == s.(disk := After(d0, w, next), phase := Committing(d0, w, next),
                committed := if k == |s.blocks| then |s.history| else s.committed)
  }

  /** Where a commit that has writes left stands. */
  lemma CommitDue(l: Layout, base: Disk, s: State)
    requires s.committed <= |s.history| && PhaseOk(l, base, s) && s.phase.Committing? && s.phase.k < |s.phase.w|
    ensures s.blocks != [] && (s.phase.k <= |s.blocks| ==> SameAs(l, s.phase.d0, Durable(l, base, s)))
  {}

  lemma OneMoreRecoverable(l: Layout, base: Disk, s: State, s': State, d0: Disk, w: Writes, k: nat, next: nat)
    requires Transaction(l, s.blocks) && s.committed <= |s.history| && PhaseOk(l, base, s)
    requires OneMore(s, s', d0, w, k, next)
    ensures s'.committed <= |s'.history| && Recoverable(l, s'.disk, Durable(l, base, s'))
  {
    SameStates(l, base, s, s');
    CommitDue(l, base, s);
    CommitPoint(l, base, s, next, if k < |s.blocks| then Durable(l, base, s) else View(l, base, s));
  }

  lemma OneMorePhase(l: Layout, base: Disk, s: State, s': State, d0: Disk, w: Writes, k: nat, next: nat)
    requires Transaction(l, s.blocks) && s.committed <= |s.history| && PhaseOk(l, base, s)
    requires OneMore(s, s', d0, w, k, next)
    ensures s'.committed <= |s'.history| && PhaseOk(l, base, s')
  {
    SameStates(l, base, s, s');
  }

  lemma CommitWriteInv(l: Layout, base: Disk, s: State, s': State, d0: Disk, w: Writes, k: nat, next: nat)
    requires Inv(l, base, s) && OneMore(s, s', d0, w, k, next)
    ensures Inv(l, base, s')
  {
    OneMoreRecoverable(l, base, s, s', d0, w, k, next);
    OneMorePhase(l, base, s, s', d0, w, k, next);
    AllDurableOps(s, s'.committed);
  }

  lemma RecoveryWriteInv(l: Layout, base: Disk, s: State, s': State, d0: Disk, w: Writes, k: nat)
    requires l.size > 0 && Inv(l, base, s) && s.phase == Recovering(d0, w, k) && k < |w|
    requires s' == s.(disk := After(d0, w, k + 1), phase := Recovering(d0, w, k + 1))
    ensures Inv(l, base, s')
  {
    SameStates(l, base, s, s');
    RecoveryRecoverable(l, d0, k + 1, View(l, base, s));
  }

  lemma AfterNext(d: Disk, w: Writes, k: nat)
    requires k < |w|
    ensures After(d, w, k + 1) == After(d, w, k)[w[k].0 := w[k].1]
  {}

  lemma DiskWriteInv(l: Layout, base: Disk, s: State)
    requires l.size > 0 && Inv(l, base, s) && Enabled(l, base, s, DiskWrite)
    ensures Inv(l, base, Next(l, base, s, DiskWrite))
  {
    var s' := Next(l, base, s, DiskWrite);
    AfterNext(s.phase.d0, s.phase.w, s.phase.k);
    if s.phase.Committing? {
      CommitWriteInv(l, base, s, s', s.phase.d0, s.phase.w, s.phase.k, s.phase.k + 1);
    } else {
      RecoveryWriteInv(l, base, s, s', s.phase.d0, s.phase.w, s.phase.k);
    }
  }

  /** When the last write is done, all of the history is durable and the header lists nothing. */
  lemma FinishPoint(l: Layout, base: Disk, s: State)
    requires l.size > 0 && Inv(l, base, s) && Enabled(l, base, s, Finish)
    ensures s.ops == [] && s.committed == |s.history| && HeadN(Read(s.disk, l.Header())) == 0
  {
    if s.phase.Committing? {
      if s.blocks != [] {
        CommitPoint(l, base, s, s.phase.k, View(l, base, s));
      }
    } else {
      RecoveryRecoverable(l, s.phase.d0, s.phase.k, View(l, base, s));
    }
  }

  lemma FinishInv(l: Layout, base: Disk, s: State)
    requires l.size > 0 && Inv(l, base, s) && Enabled(l, base, s, Finish)
    ensures Inv(l, base, Next(l, base, s, Finish))
  {
    FinishPoint(l, base, s);
  }

  lemma CrashInv(l: Layout, base: Disk, s: State)
    requires l.size > 0 && Inv(l, base, s)
    ensures Inv(l, base, Next(l, base, s, CrashNow))
  {
    var s' := Next(l, base, s, CrashNow);
    assert s'.history == s.history[..s.committed] && s'.history[..s.committed] == s'.history;
  }

  lemma StepInv(l: Layout, base: Disk, s: State, e: Event)
    requires l.size > 0 && Inv(l, base, s) && Enabled(l, base, s, e)
    ensures Inv(l, base, Next(l, base, s, e))
  {
    match e
    case Begin => BeginInv(l, base, s);
    case Write(i, b, data) => WriteInv(l, base, s, i, b, data);
    case End(i) => EndInv(l, base, s, i);
    case DiskWrite => DiskWriteInv(l, base, s);
    case Finish => FinishInv(l, base, s);
    case CrashNow => CrashInv(l, base, s);
  }

  // ---------- whole runs ----------

  ghost predicate Start(l: Layout, base: Disk, s: State) {
    && HeadN(Read(base, l.Header())) == 0
    && s == State(base, [], [], 0, Running, [], 0)
  }

  /** s is reached from mkfs's disk by the given events. */
  ghost predicate Reached(l: Layout, base: Disk, events: seq<Event>, s: State) {
    if events == [] then Start(l, base, s)
    else
      var last := events[|events| - 1];
      exists p ::
        Reached(l, base, events[..|events| - 1], p) && Enabled(l, base, p, last) && s == Next(l, base, p, last)
  }

  lemma {:induction false} ReachedInv(l: Layout, base: Disk, events: seq<Event>, s: State)
    requires l.size > 0 && Reached(l, base, events, s)
    ensures Inv(l, base, s)
    decreases |events|
  {
    if events == [] {
    } else {
      var front, last := events[..|events| - 1], events[|events| - 1];
      var p :| Reached(l, base, front, p) && Enabled(l, base, p, last) && s == Next(l, base, p, last);
      ReachedInv(l, base, front, p);
      StepInv(l, base, p, last);
    }
  }

  /** Log space and exclusion, in every run: no commit while an operation is open, and the listed blocks together with
      what open operations may still add fit into LOGSIZE. */
  lemma LogSpace(l: Layout, base: Disk, events: seq<Event>, s: State)
    requires l.size > 0 && Reached(l, base, events, s)
    ensures s.phase.Committing? ==> s.ops == []
    ensures |s.blocks| + Reserved(s.ops) <= LOGSIZE
  {
    ReachedInv(l, base, events, s);
  }

  /** When log_write panics, in every run with a log larger than LOGSIZE: exactly if LOGSIZE blocks are listed. Then
      every open operation has changed MAXOPBLOCKS blocks, and the block is one of them, which the search would have
      found. So a call has room whenever its operation has changed fewer than MAXOPBLOCKS blocks before it. */
  lemma WhenFull(l: Layout, base: Disk, events: seq<Event>, s: State, i: nat, b: nat)
    requires l.size > LOGSIZE && Reached(l, base, events, s) && Allowed(l, s, i, b)
    ensures HasRoom(l, s) <==> |s.blocks| != LOGSIZE
    ensures !HasRoom(l, s) ==> b in s.blocks && b in s.ops[i].used
    ensures !HasRoom(l, s) ==> forall j | 0 <= j < |s.ops| :: |s.ops[j].used| == MAXOPBLOCKS
  {
    ReachedInv(l, base, events, s);
    forall j | 0 <= j < |s.ops| ensures MAXOPBLOCKS - |s.ops[j].used| <= Reserved(s.ops) {
      ReservedBounds(s.ops, j);
    }
    OneMoreBlock(s.ops[i].used, b);
  }

  /** Crash safety of whole operations, in every run: a crash at any step, any number of crashing recoveries and one
      that completes give the durable state, which holds all changes of an operation or none of them; and it holds
      all changes of every finished operation once no commit is due. */
  lemma OperationsAtomic(l: Layout, base: Disk, events: seq<Event>, s: State, cuts: seq<nat>)
    requires l.size > 0 && Reached(l, base, events, s)
    ensures s.committed <= |s.history|
    ensures SameAs(l, Recover(l, s.disk, cuts), Replay(l, base, s.history[..s.committed]))
    ensures forall i, j | 0 <= i < s.committed <= j < |s.history| :: s.history[i].op != s.history[j].op
    ensures s.phase.Running? && s.blocks == [] ==> s.committed == |s.history|
  {
    ReachedInv(l, base, events, s);
    RecoverableRecovers(l, s.disk, Durable(l, base, s), cuts);
  }

  /** The header write of a commit, which makes all changes so far durable. */
  ghost predicate HeaderWrite(s: State, e: Event) {
    e.DiskWrite? && s.phase.Committing? && s.phase.k == |s.blocks|
  }

  /** No other step changes what is durable. */
  lemma DurableNext(l: Layout, base: Disk, events: seq<Event>, s: State, e: Event)
    requires l.size > 0 && Reached(l, base, events, s) && Enabled(l, base, s, e)
    ensures var t := Next(l, base, s, e);
            && s.committed <= |s.history| && s.committed <= t.committed <= |t.history|
            && if HeaderWrite(s, e) then t.ops == [] && t.committed == |t.history|
               else t.history[..t.committed] == s.history[..s.committed]
  {
    ReachedInv(l, base, events, s);
  }

  /** The last step of a run, seen so. */
  lemma DurableStep(l: Layout, base: Disk, events: seq<Event>, t: State) returns (s: State, written: bool)
    requires l.size > 0 && events != [] && Reached(l, base, events, t)
    ensures Reached(l, base, events[..|events| - 1], s) && written == HeaderWrite(s, events[|events| - 1])
    ensures s.committed <= |s.history| && t.committed <= |t.history|
    ensures s.committed <= t.committed
    ensures if written then t.ops == [] && t.committed == |t.history|
            else t.history[..t.committed] == s.history[..s.committed]
  {
    var front, e := events[..|events| - 1], events[|events| - 1];
    s :| Reached(l, base, front, s) && Enabled(l, base, s, e) && t == Next(l, base, s, e);
    written := HeaderWrite(s, e);
    DurableNext(l, base, front, s, e);
  }

  /** The steps are deterministic: the events say what state they lead to. */
  lemma {:induction false} ReachedOnce(l: Layout, base: Disk, events: seq<Event>, s: State, t: State)
    requires Reached(l, base, events, s) && Reached(l, base, events, t)
    ensures s == t
    decreases |events|
  {
    if events == [] {
    } else {
      var front, last := events[..|events| - 1], events[|events| - 1];
      var p :| Reached(l, base, front, p) && Enabled(l, base, p, last) && s == Next(l, base, p, last);
      var q :| Reached(l, base, front, q) && Enabled(l, base, q, last) && t == Next(l, base, q, last);
      ReachedOnce(l, base, front, p, q);
    }
  }

  /** Event j of the run is the header write of a commit. */
  ghost predicate HeaderWritten(l: Layout, base: Disk, events: seq<Event>, j: nat) {
    j < |events| && exists s :: Reached(l, base, events[..j], s) && HeaderWrite(s, events[j])
  }

  /** The last header write of the run is event m - 1, or there is none and m is 0. */
  ghost predicate LastHeaderWrite(l: Layout, base: Disk, events: seq<Event>, m: nat) {
    forall x: nat | Stages(x) ::
      && (m > 0 ==> HeaderWritten(l, base, events, m - 1))
      && forall j | m <= j < |events| :: !HeaderWritten(l, base, events, j)
  }

  /** One step more. */
  lemma LastWritten(l: Layout, base: Disk, front: seq<Event>, s: State, e: Event, m: nat)
    requires Reached(l, base, front, s) && m <= |front| && LastHeaderWrite(l, base, front, m)
    ensures LastHeaderWrite(l, base, front + [e], if HeaderWrite(s, e) then |front| + 1 else m)
  {
    assert Stages(0);
    var events := front + [e];
    assert events[..|front|] == front;
    if HeaderWritten(l, base, events, |front|) {
      var t :| Reached(l, base, front, t) && HeaderWrite(t, e);
      ReachedOnce(l, base, front, s, t);
    }
    forall j | 0 <= j < |front| ensures HeaderWritten(l, base, events, j) <==> HeaderWritten(l, base, front, j) {
      assert events[..j] == front[..j];
    }
  }

  /** The durable state is that of a quiet point of the run, at which no operation was open: the one right after the
      last header write of a commit, or the start if there was none. */
  lemma {:induction false} DurablePoint(l: Layout, base: Disk, events: seq<Event>, s: State)
    returns (before: seq<Event>, after: seq<Event>, p: State)
    requires l.size > 0 && Reached(l, base, events, s)
    ensures s.committed <= |s.history| && events == before + after && LastHeaderWrite(l, base, events, |before|)
    ensures Reached(l, base, before, p) && p.ops == [] && p.history == s.history[..s.committed]
    decreases |events|
  {
    if events == [] {
      before, after, p := [], [], s;
    } else {
      var front, last := events[..|events| - 1], events[|events| - 1];
      var q, written := DurableStep(l, base, events, s);
      before, after, p := DurablePoint(l, base, front, q);
      LastWritten(l, base, front, q, last, |before|);
      assert events == front + [last];
      if written {
        before, after, p := events, [], s;
        assert s.history[..s.committed] == s.history;
      } else {
        after := after + [last];
      }
    }
  }

  /** What is durable stays so. */
  lemma {:induction false} DurableGrows(l: Layout, base: Disk, events: seq<Event>, s: State, more: seq<Event>, t: State)
    requires l.size > 0 && Reached(l, base, events, s) && Reached(l, base, events + more, t)
    ensures s.committed <= t.committed
    decreases |more|
  {
    if more == [] {
      assert events + more == events;
      ReachedOnce(l, base, events, s, t);
    } else {
      var all, front := events + more, more[..|more| - 1];
      var q, written := DurableStep(l, base, all, t);
      assert all[..|all| - 1] == events + front;
      DurableGrows(l, base, events, s, front, q);
    }
  }

  // ---------- a log that is too small ----------

  /** j writes to different home blocks by three open operations, the first ten by the first, and so on. */
  ghost predicate Filling(l: Layout, s: State, j: nat) {
    && s.phase.Running? && |s.ops| == 3 && |s.blocks| == j
    && (forall i | 0 <= i < 3 :: |s.ops[i].used| == Fill(j, i))
    && (forall i, b | 0 <= i < 3 && b in s.ops[i].used :: b in s.blocks)
    && (forall t | 0 <= t < j :: s.blocks[t] == l.start + l.size + t)
  }

  function Fill(j: nat, i: nat): (n: nat) {
    if j <= MAXOPBLOCKS * i then 0 else Min(j - MAXOPBLOCKS * i, MAXOPBLOCKS)
  }

  lemma ExtendRun(l: Layout, base: Disk, events: seq<Event>, s: State, e: Event) returns (more: seq<Event>)
    requires Reached(l, base, events, s) && Enabled(l, base, s, e)
    ensures Reached(l, base, more, Next(l, base, s, e)) && more == events + [e]
  {
    more := events + [e];
    assert more[..|more| - 1] == events && more[|more| - 1] == e;
    assert Reached(l, base, more[..|more| - 1], s);
  }

  lemma BeginRun(l: Layout, base: Disk, s: State) returns (events: seq<Event>)
    requires Start(l, base, s)
    ensures Reached(l, base, events, s)
  {
    events := [];
  }

  lemma OpenThree(l: Layout, base: Disk, s0: State) returns (events: seq<Event>, s: State)
    requires Start(l, base, s0)
    ensures Reached(l, base, events, s) && Filling(l, s, 0)
  {
    events := BeginRun(l, base, s0);
    events := ExtendRun(l, base, events, s0, Begin);
    var s1 := Next(l, base, s0, Begin);
    events := ExtendRun(l, base, events, s1, Begin);
    var s2 := Next(l, base, s1, Begin);
    events := ExtendRun(l, base, events, s2, Begin);
    s := Next(l, base, s2, Begin);
  }

  lemma FillStep(l: Layout, base: Disk, s: State, j: nat, data: Block)
    requires Filling(l, s, j) && j < LOGSIZE && j < l.size - 1 && l.start + l.size + LOGSIZE < WORD_LIMIT
    ensures Enabled(l, base, s, Write(j / MAXOPBLOCKS, l.start + l.size + j, data))
    ensures |s.ops[j / MAXOPBLOCKS].used| < MAXOPBLOCKS
    ensures Filling(l, Next(l, base, s, Write(j / MAXOPBLOCKS, l.start + l.size + j, data)), j + 1)
  {
    assert l.start + l.size + j !in s.blocks;
    OneMoreBlock(s.ops[j / MAXOPBLOCKS].used, l.start + l.size + j);
  }

  lemma {:induction false} FillLog(l: Layout, base: Disk, s0: State, j: nat) returns (events: seq<Event>, s: State)
    requires Start(l, base, s0) && j <= LOGSIZE && j < l.size && l.start + l.size + LOGSIZE < WORD_LIMIT
    ensures Reached(l, base, events, s) && Filling(l, s, j)
  {
    if j == 0 {
      events, s := OpenThree(l, base, s0);
    } else {
      events, s := FillLog(l, base, s0, j - 1);
      var e := Write((j - 1) / MAXOPBLOCKS, l.start + l.size + (j - 1), ZeroBlock());
      FillStep(l, base, s, j - 1, ZeroBlock());
      events := ExtendRun(l, base, events, s, e);
      s := Next(l, base, s, e);
    }
  }

  /** With a log of LOGSIZE blocks or fewer there is a run in which log_write panics on a call of an operation that has
      changed fewer than MAXOPBLOCKS blocks: so the log has room for all those calls exactly if it is larger. */
  lemma LogTooSmall(l: Layout, base: Disk, s0: State) returns (events: seq<Event>, s: State, i: nat, b: nat)
    requires 1 <= l.size <= LOGSIZE && Start(l, base, s0) && l.start + l.size + LOGSIZE < WORD_LIMIT
    ensures Reached(l, base, events, s) && Allowed(l, s, i, b) && |s.ops[i].used| < MAXOPBLOCKS && !HasRoom(l, s)
  {
    events, s := FillLog(l, base, s0, l.size - 1);
    i, b := (l.size - 1) / MAXOPBLOCKS, l.start + l.size + (l.size - 1);
    OneMoreBlock(s.ops[i].used, b);
  }

  /** With a larger log there is a run, within all budgets, that lists as many blocks as there are buffers. Its commit
      finds no buffer for the first log block, as Log.LogSystem.Commit says. And before that, log_write panics on one
      more call for a block that is listed already. */
  lemma AllBuffersListed(l: Layout, base: Disk, s0: State) returns (events: seq<Event>, s: State, b: nat)
    requires l.size > LOGSIZE && Start(l, base, s0) && l.start + l.size + LOGSIZE < WORD_LIMIT
    ensures Reached(l, base, events, s) && |s.blocks| == NBUF && s.phase.Running? && |s.ops| == 3
    ensures Allowed(l, s, 0, b) && b in s.ops[0].used && b in s.blocks && !HasRoom(l, s)
  {
    events, s := FillLog(l, base, s0, NBUF);
    assert |s.ops[0].used| == MAXOPBLOCKS;
    b :| b in s.ops[0].used;
    assert b in s.blocks;
    var t :| 0 <= t < |s.blocks| && s.blocks[t] == b;
    OneMoreBlock(s.ops[0].used, b);
  }
}
