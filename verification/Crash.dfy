/** What a crash can leave on disk. A run of the log code is seen here only through the single-block writes that it
    issues in order; a crash keeps a prefix of them. */
module Crash {
  import opened BufferCache
  import opened Bytes
  import opened Params
  import opened Words

  type Disk = map<Id, Block>
  type Writes = seq<(Id, Block)>

  /** Where the log lives: the header at block `start` of `dev`, followed by size - 1 log blocks. */
  datatype Layout = Layout(dev: nat, start: nat, size: nat) {
    function At(b: nat): (id: Id) {
      Id(dev, b)
    }

    function Header(): (id: Id) {
      At(start)
    }

    function Slot(t: nat): (id: Id) {
      At(start + t + 1)
    }

    predicate InLog(id: Id) {
      id.dev == dev && start <= id.blockno < start + size
    }
  }

  function Read(d: Disk, id: Id): (b: Block) {
    if id in d then d[id] else ZeroBlock()
  }

  /** The disk after the first k writes, in order. */
  function After(d: Disk, w: Writes, k: nat): (r: Disk)
    requires k <= |w|
  {
    if k == 0 then d else After(d, w, k - 1)[w[k - 1].0 := w[k - 1].1]
  }

  function Apply(d: Disk, w: Writes): (r: Disk) {
    After(d, w, |w|)
  }

  lemma PrefixMore(tr: Writes, w: Writes, k: nat)
    requires k < |w|
    ensures tr + w[..k] + [w[k]] == tr + w[..k + 1]
  {}

  // ---------- the header block ----------

  function HeadN(b: Block): (n: nat) {
    GetWord(b, 0)
  }

  /** The block numbers a header lists. Only headers with at most LOGSIZE entries are ever read by the kernel. */
  function HeadBlocks(b: Block): (s: seq<nat>) {
    seq(if HeadN(b) <= LOGSIZE then HeadN(b) else LOGSIZE, i requires 0 <= i < LOGSIZE => GetWord(b, 1 + i) as nat)
  }

  ghost predicate Listable(blocks: seq<nat>) {
    |blocks| <= LOGSIZE && forall t | 0 <= t < |blocks| :: blocks[t] < WORD_LIMIT
  }

  /** The header block after write_head: the count, then the listed blocks; the rest of the block stays. */
  function HeaderFor(b: Block, blocks: seq<nat>): (r: Block)
    requires |blocks| <= LOGSIZE && forall t | 0 <= t < |blocks| :: blocks[t] < WORD_LIMIT
  {
    FillBlocks(SetWord(b, 0, |blocks|), blocks)
  }

  /** The header block with n = 0. */
  function Emptied(b: Block): (r: Block) {
    SetWord(b, 0, 0)
  }

  lemma EmptiedReads(b: Block)
    ensures HeadN(Emptied(b)) == 0 && |HeadBlocks(Emptied(b))| == 0
  {
    SetWordReads(b, 0, 0, 0);
  }

  /** write_head with nothing listed. */
  lemma HeaderForNone(b: Block, blocks: seq<nat>)
    requires |blocks| == 0
    ensures HeaderFor(b, blocks) == Emptied(b)
  {}

  function FillBlocks(b: Block, blocks: seq<nat>): (r: Block)
    requires |blocks| <= LOGSIZE && forall t | 0 <= t < |blocks| :: blocks[t] < WORD_LIMIT
    decreases |blocks|
  {
    if blocks == [] then b
    else SetWord(FillBlocks(b, blocks[..|blocks| - 1]), |blocks|, blocks[|blocks| - 1])
  }

  lemma {:induction false} FillBlocksReads(b: Block, blocks: seq<nat>, j: nat)
    requires Listable(blocks) && j < WORDS
    ensures GetWord(FillBlocks(b, blocks), j) == if 1 <= j <= |blocks| then blocks[j - 1] else GetWord(b, j)
    decreases |blocks|
  {
    if blocks == [] {
      assert FillBlocks(b, blocks) == b;
    } else {
      var front := blocks[..|blocks| - 1];
      FillBlocksReads(b, front, j);
      SetWordReads(FillBlocks(b, front), |blocks|, blocks[|blocks| - 1], j);
    }
  }

  /** A written header reads back. */
  lemma HeaderReads(b: Block, blocks: seq<nat>)
    requires Listable(blocks)
    ensures HeadN(HeaderFor(b, blocks)) == |blocks|
    ensures HeadBlocks(HeaderFor(b, blocks)) == blocks
  {
    var b' := SetWord(b, 0, |blocks|);
    SetWordReads(b, 0, |blocks|, 0);
    FillBlocksReads(b', blocks, 0);
    forall t | 0 <= t < |blocks| ensures HeadBlocks(HeaderFor(b, blocks))[t] == blocks[t] {
      FillBlocksReads(b', blocks, 1 + t);
    }
  }

  // ---------- the writes of commit and recovery ----------

  function LogWrites(l: Layout, vals: seq<Block>): (w: Writes) {
    seq(|vals|, t requires 0 <= t < |vals| => (l.Slot(t), vals[t]))
  }

  function Installs(l: Layout, blocks: seq<nat>, vals: seq<Block>): (w: Writes)
    requires |blocks| == |vals|
  {
    seq(|vals|, t requires 0 <= t < |vals| => (l.At(blocks[t]), vals[t]))
  }

  /** commit(): write_log, write_head, install_trans, and the header again with n = 0. */
  function CommitWrites(l: Layout, head: Block, blocks: seq<nat>, vals: seq<Block>): (w: Writes)
    requires |blocks| == |vals| <= LOGSIZE && forall t | 0 <= t < |blocks| :: blocks[t] < WORD_LIMIT
  {
    var head' := HeaderFor(head, blocks);
    LogWrites(l, vals) + [(l.Header(), head')] + Installs(l, blocks, vals) + [(l.Header(), Emptied(head'))]
  }

  function LoggedVals(l: Layout, d: Disk): (s: seq<Block>) {
    seq(|HeadBlocks(Read(d, l.Header()))|, t requires 0 <= t => Read(d, l.Slot(t)))
  }

  /** recover_from_log(): install what the header on disk lists, then clear the header. */
  function RecoverWrites(l: Layout, d: Disk): (w: Writes) {
    var head := Read(d, l.Header());
    Installs(l, HeadBlocks(head), LoggedVals(l, d)) + [(l.Header(), Emptied(head))]
  }

  function Min(a: nat, b: nat): (m: nat) {
    if a < b then a else b
  }

  /** The disk after a recovery that crashes after cuts[0] writes, another that crashes after cuts[1] writes, and so
      on, and finally one that runs to completion. */
  function Recover(l: Layout, d: Disk, cuts: seq<nat>): (r: Disk)
    decreases |cuts|
  {
    var w := RecoverWrites(l, d);
    if cuts == [] then Apply(d, w) else Recover(l, After(d, w, Min(cuts[0], |w|)), cuts[1..])
  }

  // ---------- atomicity ----------

  /** Distinct home blocks, few enough for the log. */
  ghost predicate Transaction(l: Layout, blocks: seq<nat>) {
    && Listable(blocks) && |blocks| < l.size
    && (forall t | 0 <= t < |blocks| :: !l.InLog(l.At(blocks[t])))
    && (forall s, t | 0 <= s < t < |blocks| :: blocks[s] != blocks[t])
  }

  /** No transaction is committed on d, and its home blocks are those of d0. */
  ghost predicate Old(l: Layout, d0: Disk, d: Disk) {
    && HeadN(Read(d, l.Header())) == 0
    && forall id | !l.InLog(id) :: Read(d, id) == Read(d0, id)
  }

  /** The transaction is committed on d; some of it may already be installed. */
  ghost predicate Committed(l: Layout, d0: Disk, blocks: seq<nat>, vals: seq<Block>, d: Disk)
    requires |blocks| == |vals|
  {
    && HeadN(Read(d, l.Header())) == |blocks|
    && HeadBlocks(Read(d, l.Header())) == blocks
    && (forall t | 0 <= t < |blocks| :: Read(d, l.Slot(t)) == vals[t])
    && Untouched(l, d0, blocks, d)
  }

  ghost predicate Untouched(l: Layout, d0: Disk, blocks: seq<nat>, d: Disk) {
    forall id | !l.InLog(id) && !(id.dev == l.dev && id.blockno in blocks) :: Read(d, id) == Read(d0, id)
  }

  /** No transaction is pending on d, and all of the given one is in place. */
  ghost predicate New(l: Layout, d0: Disk, blocks: seq<nat>, vals: seq<Block>, d: Disk)
    requires |blocks| == |vals|
  {
    && HeadN(Read(d, l.Header())) == 0
    && (forall t | 0 <= t < |blocks| :: Read(d, l.At(blocks[t])) == vals[t])
    && Untouched(l, d0, blocks, d)
  }

  /** What the first k writes of a commit leave. */
  ghost predicate Stage(l: Layout, d0: Disk, blocks: seq<nat>, vals: seq<Block>, k: nat, d: Disk)
    requires |blocks| == |vals|
  {
    var n := |blocks|;
    if k <= n then
      Old(l, d0, d) && forall t | 0 <= t < k :: Read(d, l.Slot(t)) == vals[t]
    else if k <= 2 * n + 1 then
      Committed(l, d0, blocks, vals, d) && forall t | 0 <= t < k - n - 1 :: Read(d, l.At(blocks[t])) == vals[t]
    else
      New(l, d0, blocks, vals, d)
  }

  lemma LogWriteStep(l: Layout, d0: Disk, blocks: seq<nat>, vals: seq<Block>, k: nat, d: Disk)
    requires Transaction(l, blocks) && |vals| == |blocks| && k < |blocks| && Stage(l, d0, blocks, vals, k, d)
    ensures Stage(l, d0, blocks, vals, k + 1, d[l.Slot(k) := vals[k]])
  {}

  lemma HeadStep(l: Layout, d0: Disk, blocks: seq<nat>, vals: seq<Block>, d: Disk, h: Block)
    requires Transaction(l, blocks) && |vals| == |blocks| && Stage(l, d0, blocks, vals, |blocks|, d)
    requires HeadN(h) == |blocks| && HeadBlocks(h) == blocks
    ensures Stage(l, d0, blocks, vals, |blocks| + 1, d[l.Header() := h])
  {}

  lemma InstallStep(l: Layout, d0: Disk, blocks: seq<nat>, vals: seq<Block>, t: nat, d: Disk)
    requires Transaction(l, blocks) && |vals| == |blocks| && t < |blocks|
    requires Stage(l, d0, blocks, vals, |blocks| + 1 + t, d)
    ensures Stage(l, d0, blocks, vals, |blocks| + 2 + t, d[l.At(blocks[t]) := vals[t]])
  {
    var d' := d[l.At(blocks[t]) := vals[t]];
    forall s | 0 <= s < |blocks| ensures Read(d', l.Slot(s)) == vals[s] {
      assert l.InLog(l.Slot(s));
    }
  }

  lemma ClearStep(l: Layout, d0: Disk, blocks: seq<nat>, vals: seq<Block>, d: Disk, h: Block)
    requires Transaction(l, blocks) && |vals| == |blocks| && Stage(l, d0, blocks, vals, 2 * |blocks| + 1, d)
    requires HeadN(h) == 0
    ensures Stage(l, d0, blocks, vals, 2 * |blocks| + 2, d[l.Header() := h])
  {
    assert l.InLog(l.Header());
  }

  /** The writes of w from `base` on copy vals to the given blocks. */
  ghost predicate InstallShape(l: Layout, blocks: seq<nat>, vals: seq<Block>, w: Writes, base: nat) {
    && |blocks| == |vals| && base + |vals| < |w|
    && forall t | 0 <= t < |vals| :: w[base + t] == (l.At(blocks[t]), vals[t])
  }

  /** The first writes of w copy vals to the log. */
  ghost predicate LogShape(l: Layout, vals: seq<Block>, w: Writes) {
    |vals| < |w| && forall t | 0 <= t < |vals| :: w[t] == (l.Slot(t), vals[t])
  }

  /** w is the writes of a commit, with h and h0 as its two header blocks. */
  ghost predicate CommitShape(l: Layout, blocks: seq<nat>, vals: seq<Block>, w: Writes, h: Block, h0: Block)
    requires |blocks| == |vals|
  {
    var n := |blocks|;
    && HeadN(h) == n && HeadBlocks(h) == blocks && HeadN(h0) == 0
    && |w| == 2 * n + 2
    && LogShape(l, vals, w)
    && w[n] == (l.Header(), h)
    && InstallShape(l, blocks, vals, w, n + 1)
    && w[2 * n + 1] == (l.Header(), h0)
  }

  lemma CommitWritesShape(l: Layout, head: Block, blocks: seq<nat>, vals: seq<Block>)
    requires Listable(blocks) && |blocks| == |vals|
    ensures CommitShape(l, blocks, vals, CommitWrites(l, head, blocks, vals),
                        HeaderFor(head, blocks), Emptied(HeaderFor(head, blocks)))
  {
    HeaderReads(head, blocks);
    EmptiedReads(HeaderFor(head, blocks));
  }

  lemma StageStep(
      l: Layout, d0: Disk, blocks: seq<nat>, vals: seq<Block>, w: Writes, h: Block, h0: Block, k: nat, d: Disk)
    requires Transaction(l, blocks) && |vals| == |blocks| && CommitShape(l, blocks, vals, w, h, h0)
    requires k < |w| && Stage(l, d0, blocks, vals, k, d)
    ensures Stage(l, d0, blocks, vals, k + 1, d[w[k].0 := w[k].1])
  {
    var n := |blocks|;
    if k < n {
      LogWriteStep(l, d0, blocks, vals, k, d);
    } else if k == n {
      HeadStep(l, d0, blocks, vals, d, h);
    } else if k <= 2 * n {
      var t := k - n - 1;
      assert w[n + 1 + t] == (l.At(blocks[t]), vals[t]);
      InstallStep(l, d0, blocks, vals, t, d);
    } else {
      ClearStep(l, d0, blocks, vals, d, h0);
    }
  }

  lemma {:induction false} CommitStages(
      l: Layout, d0: Disk, blocks: seq<nat>, vals: seq<Block>, w: Writes, h: Block, h0: Block, k: nat)
    requires Transaction(l, blocks) && |vals| == |blocks| && HeadN(Read(d0, l.Header())) == 0
    requires CommitShape(l, blocks, vals, w, h, h0) && k <= |w|
    ensures Stage(l, d0, blocks, vals, k, After(d0, w, k))
  {
    if k == 0 {
    } else {
      CommitStages(l, d0, blocks, vals, w, h, h0, k - 1);
      StageStep(l, d0, blocks, vals, w, h, h0, k - 1, After(d0, w, k - 1));
    }
  }

  /** Recovering where nothing is committed changes no home block, however often it crashes. */
  lemma {:induction false} RecoverOld(l: Layout, d0: Disk, d: Disk, cuts: seq<nat>)
    requires l.size > 0 && Old(l, d0, d)
    ensures Old(l, d0, Recover(l, d, cuts))
    decreases |cuts|
  {
    var head, w := Read(d, l.Header()), RecoverWrites(l, d);
    EmptiedReads(head);
    var k := if cuts == [] then |w| else Min(cuts[0], |w|);
    assert l.InLog(l.Header());
    assert After(d, w, k) == if k == 0 then d else d[l.Header() := w[0].1];
    if cuts == [] {
    } else {
      RecoverOld(l, d0, After(d, w, k), cuts[1..]);
    }
  }

  /** The writes of a recovery of a committed transaction. */
  lemma RecoverShape(l: Layout, d0: Disk, blocks: seq<nat>, vals: seq<Block>, d: Disk)
    requires Transaction(l, blocks) && |vals| == |blocks| && Committed(l, d0, blocks, vals, d)
    ensures var w := RecoverWrites(l, d);
            && |w| == |blocks| + 1 && w[|blocks|] == (l.Header(), Emptied(Read(d, l.Header())))
            && forall t | 0 <= t < |blocks| :: w[t] == (l.At(blocks[t]), vals[t])
  {
    assert LoggedVals(l, d) == vals;
  }

  /** The first k of them are as good as those of its commit. */
  lemma {:induction false} RecoverStages(
      l: Layout, d0: Disk, blocks: seq<nat>, vals: seq<Block>, d: Disk, w: Writes, k: nat)
    requires Transaction(l, blocks) && |vals| == |blocks| && Committed(l, d0, blocks, vals, d)
    requires k <= |blocks| + 1 == |w|
    requires w[|blocks|] == (l.Header(), Emptied(Read(d, l.Header())))
    requires forall t | 0 <= t < |blocks| :: w[t] == (l.At(blocks[t]), vals[t])
    ensures Stage(l, d0, blocks, vals, |blocks| + 1 + k, After(d, w, k))
  {
    if k == 0 {
      assert After(d, w, k) == d;
    } else {
      RecoverStages(l, d0, blocks, vals, d, w, k - 1);
      var e := After(d, w, k - 1);
      if k <= |blocks| {
        InstallStep(l, d0, blocks, vals, k - 1, e);
      } else {
        EmptiedReads(Read(d, l.Header()));
        ClearStep(l, d0, blocks, vals, e, w[k - 1].1);
      }
    }
  }

  /** Once committed, the transaction is installed in full, however often recovery crashes. */
  lemma {:induction false} RecoverCommitted(
      l: Layout, d0: Disk, blocks: seq<nat>, vals: seq<Block>, d: Disk, cuts: seq<nat>)
    requires Transaction(l, blocks) && |vals| == |blocks| && Committed(l, d0, blocks, vals, d)
    ensures New(l, d0, blocks, vals, Recover(l, d, cuts))
    decreases |cuts|
  {
    var w := RecoverWrites(l, d);
    RecoverShape(l, d0, blocks, vals, d);
    RecoverStages(l, d0, blocks, vals, d, w, 0);
    var k := if cuts == [] then |w| else Min(cuts[0], |w|);
    RecoverStages(l, d0, blocks, vals, d, w, k);
    var e := After(d, w, k);
    if cuts == [] {
    } else if k < |w| {
      RecoverCommitted(l, d0, blocks, vals, e, cuts[1..]);
    } else {
      RecoverOld(l, e, e, cuts[1..]);
    }
  }

  /** Crash atomicity: a commit that crashes after any k of its writes, followed by any number of crashing recoveries
      and one that completes, leaves the home blocks all old or all new. They are new exactly if the header write,
      which is write number n + 1, reached the disk. */
  lemma CrashAtomicity(l: Layout, d0: Disk, blocks: seq<nat>, vals: seq<Block>, k: nat, cuts: seq<nat>)
    requires Transaction(l, blocks) && |vals| == |blocks| && HeadN(Read(d0, l.Header())) == 0
    requires k <= |CommitWrites(l, Read(d0, l.Header()), blocks, vals)|
    ensures var e := Recover(l, After(d0, CommitWrites(l, Read(d0, l.Header()), blocks, vals), k), cuts);
            if k <= |blocks| then Old(l, d0, e) else New(l, d0, blocks, vals, e)
  {
    CommitWritesShape(l, Read(d0, l.Header()), blocks, vals);
    CommitStages(l, d0, blocks, vals, CommitWrites(l, Read(d0, l.Header()), blocks, vals),
                 HeaderFor(Read(d0, l.Header()), blocks), Emptied(HeaderFor(Read(d0, l.Header()), blocks)), k);
    var d := After(d0, CommitWrites(l, Read(d0, l.Header()), blocks, vals), k);
    if k <= |blocks| {
      RecoverOld(l, d0, d, cuts);
    } else if k <= 2 * |blocks| + 1 {
      RecoverCommitted(l, d0, blocks, vals, d, cuts);
    } else {
      RecoverOld(l, d, d, cuts);
    }
  }
}
