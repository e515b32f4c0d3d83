/** The redo log of log.c over the buffer cache. The file system sees one block map, `view`: what the last log_write
    (or the disk) says a block holds. */
module Log {
  import opened BufferCache
  import opened Bytes
  import opened Crash
  import opened Guards
  import opened Options
  import opened Params
  import opened Words

  type View = map<Id, Block>

  /** The blocks that are changed in the cache only, each with the buffer that holds it. */
  type Pins = map<Id, nat>

  /** Buffers, disk and the block map agree: a pinned block has a valid dirty buffer, which bget never reuses, every
      other block is on disk, and a buffer that is not locked holds what the map says. */
  ghost predicate Coherent(buf: seq<Buf>, disk: Disk, view: View, pins: Pins) {
    && disk.Keys == view.Keys
    && (forall i | 0 <= i < |buf| && buf[i].valid && !buf[i].locked && buf[i].id.dev != 0 ::
          buf[i].id in view && buf[i].data == view[buf[i].id])
    && (forall i | 0 <= i < |buf| && buf[i].dirty :: buf[i].id in pins && pins[buf[i].id] == i)
    && (forall id | id in pins ::
          id in view && pins[id] < |buf| && buf[pins[id]].id == id && buf[pins[id]].dirty && buf[pins[id]].valid)
    && (forall id | id in disk && id !in pins :: disk[id] == view[id])
  }

  /** They agree, with exactly the buffers of `held` locked. */
  ghost predicate Settled(buf: seq<Buf>, disk: Disk, view: View, pins: Pins, held: set<nat>) {
    Coherent(buf, disk, view, pins) && forall i | 0 <= i < |buf| :: buf[i].locked <==> i in held
  }

  /** Exactly the buffers of `held` are referenced, once each. */
  ghost predicate Idle(buf: seq<Buf>, held: set<nat>) {
    forall i | 0 <= i < |buf| :: buf[i].refcnt == if i in held then 1 else 0
  }

  /** bread gives its caller exactly what the block map says. */
  lemma BreadCoherent(buf: seq<Buf>, disk: Disk, view: View, pins: Pins, b: nat, id: Id)
    requires Coherent(buf, disk, view, pins) && Unique(buf) && b < |buf| && !buf[b].locked
    requires id in disk && id.dev != 0
    requires buf[b].id == id || (!Cached(buf, id) && Reusable(buf[b]))
    ensures Loaded(buf[b], id, disk).data == view[id]
    ensures Coherent(buf[b := Loaded(buf[b], id, disk)], disk, view, pins)
  {
    if id in pins {
      assert Cached(buf, id) && pins[id] == b;
    }
  }

  /** bwrite of a held buffer sets the block in the map and on disk, and unpins it. */
  lemma BwriteCoherent(buf: seq<Buf>, disk: Disk, view: View, pins: Pins, b: nat)
    requires Coherent(buf, disk, view, pins) && Unique(buf) && b < |buf| && buf[b].locked
    requires buf[b].id in view && buf[b].id.dev != 0
    ensures var id, data := buf[b].id, buf[b].data;
            Coherent(buf[b := buf[b].(valid := true, dirty := false)], disk[id := data], view[id := data], pins - {id})
  {}

  /** Overwriting a held buffer and writing it through. */
  lemma StoreCoherent(buf: seq<Buf>, disk: Disk, view: View, pins: Pins, b: nat, data: Block)
    requires Coherent(buf, disk, view, pins) && Unique(buf) && b < |buf| && buf[b].locked
    requires buf[b].id in view && buf[b].id.dev != 0
    ensures var id := buf[b].id;
            && view[id := data].Keys == view.Keys && disk[id := data].Keys == disk.Keys
            && Coherent(buf[b := buf[b].(data := data, valid := true, dirty := false)], disk[id := data],
                        view[id := data], pins - {id})
  {
    var buf1 := buf[b := buf[b].(data := data)];
    HolderCoherent(buf, disk, view, pins, b, buf1[b]);
    BwriteCoherent(buf1, disk, view, pins, b);
    assert buf[b := buf[b].(data := data, valid := true, dirty := false)] ==
           buf1[b := buf1[b].(valid := true, dirty := false)];
  }

  /** log_write of a held buffer sets the block in the map and pins it; the disk stays. */
  lemma LogWriteCoherent(buf: seq<Buf>, disk: Disk, view: View, pins: Pins, b: nat)
    requires Coherent(buf, disk, view, pins) && Unique(buf) && b < |buf| && buf[b].locked && buf[b].valid
    requires buf[b].id in view && buf[b].id.dev != 0
    ensures Coherent(buf[b := buf[b].(dirty := true)], disk, view[buf[b].id := buf[b].data], pins[buf[b].id := b])
  {}

  /** Changing a held buffer, without touching its id and flags, keeps the agreement, if a released buffer holds what
      the map says. */
  lemma HolderCoherent(buf: seq<Buf>, disk: Disk, view: View, pins: Pins, b: nat, n: Buf)
    requires Coherent(buf, disk, view, pins) && b < |buf| && buf[b].locked
    requires n.id == buf[b].id && n.valid == buf[b].valid && n.dirty == buf[b].dirty
    requires !n.locked && n.id.dev != 0 ==> n.id in view && n.data == view[n.id]
    ensures Coherent(buf[b := n], disk, view, pins)
  {}

  // ---------- bread, bwrite, brelse and log_write keep cache, disk and map settled ----------

  lemma BreadSettled(buf: seq<Buf>, disk: Disk, view: View, pins: Pins, held: set<nat>, b: nat, id: Id)
    requires Settled(buf, disk, view, pins, held) && Unique(buf) && b < |buf| && id in disk && id.dev != 0
    requires buf[b].id == id || (!Cached(buf, id) && Reusable(buf[b]))
    requires b !in held
    ensures var buf' := buf[b := Loaded(buf[b], id, disk)];
            && Settled(buf', disk, view, pins, held + {b}) && buf'[b].data == view[id]
            && (Idle(buf, held) ==> Idle(buf', held + {b}))
  {
    BreadCoherent(buf, disk, view, pins, b, id);
  }

  lemma StoreSettled(buf: seq<Buf>, disk: Disk, view: View, pins: Pins, held: set<nat>, b: nat, data: Block)
    requires Settled(buf, disk, view, pins, held) && Unique(buf) && b < |buf| && b in held
    requires buf[b].id in view && buf[b].id.dev != 0
    ensures var id, buf' := buf[b].id, buf[b := buf[b].(data := data, valid := true, dirty := false)];
            && view[id := data].Keys == view.Keys && disk[id := data].Keys == disk.Keys
            && Settled(buf', disk[id := data], view[id := data], pins - {id}, held)
            && (Idle(buf, held) ==> Idle(buf', held))
  {
    StoreCoherent(buf, disk, view, pins, b, data);
  }

  lemma ReleaseSettled(buf: seq<Buf>, disk: Disk, view: View, pins: Pins, held: set<nat>, b: nat, n: Buf)
    requires Settled(buf, disk, view, pins, held) && Unique(buf) && b < |buf| && b in held && buf[b].id.dev != 0
    requires buf[b].id in view && buf[b].data == view[buf[b].id]
    requires n == buf[b].(locked := false, refcnt := n.refcnt) && n.refcnt + 1 == buf[b].refcnt
    ensures Settled(buf[b := n], disk, view, pins, held - {b})
    ensures Idle(buf, held) ==> Idle(buf[b := n], held - {b})
    ensures buf[b].valid && !buf[b].dirty ==> buf[b].id in disk && buf[b].data == disk[buf[b].id]
  {
    HolderCoherent(buf, disk, view, pins, b, n);
    if buf[b].valid && !buf[b].dirty {
      assert buf[b].id !in pins;
    }
  }

  lemma PinSettled(buf: seq<Buf>, disk: Disk, view: View, pins: Pins, held: set<nat>, b: nat)
    requires Settled(buf, disk, view, pins, held) && Unique(buf) && b < |buf| && b in held && buf[b].valid
    requires buf[b].id in view && buf[b].id.dev != 0
    ensures Settled(buf[b := buf[b].(dirty := true)], disk, view[buf[b].id := buf[b].data], pins[buf[b].id := b], held)
  {
    LogWriteCoherent(buf, disk, view, pins, b);
  }

  lemma NotPinned(pins: Pins, id: Id)
    requires id !in pins
    ensures pins - {id} == pins
  {}

  lemma KeysSame(view: View, id: Id, data: Block)
    requires id in view
    ensures view[id := data].Keys == view.Keys
  {}

  /** What the block map says the listed blocks hold. */
  ghost function ValsOf(l: Layout, blocks: seq<nat>, view: View): (s: seq<Block>) {
    seq(|blocks|, t requires 0 <= t < |blocks| => Read(view, l.At(blocks[t])))
  }

  /** The log area is on the disk, and the header lists distinct home blocks, few enough for the log. */
  ghost predicate HeaderOk(l: Layout, blocks: seq<nat>, keys: set<Id>) {
    && l.dev != 0 && Listable(blocks)
    && forall x: nat | Stages(x) ::
      && Transaction(l, blocks) && (forall id | l.InLog(id) :: id in keys)
      && (forall t | 0 <= t < |blocks| :: l.At(blocks[t]) in keys)
  }

  /** The pinned blocks are the listed ones. */
  ghost predicate PinsAre(l: Layout, blocks: seq<nat>, pins: Pins) {
    forall x: nat | Stages(x) ::
      && (forall id | id in pins :: id.dev == l.dev && id.blockno in blocks)
      && (forall t | 0 <= t < |blocks| :: l.At(blocks[t]) in pins)
  }

  /** The block map after the first k blocks were copied to the log. */
  ghost predicate LogStage(l: Layout, vals: seq<Block>, before: View, after: View, k: nat) {
    && after.Keys == before.Keys
    && (forall id | id in before && !l.InLog(id) :: after[id] == before[id])
    && Read(after, l.Header()) == Read(before, l.Header())
    && k <= |vals| && forall t | 0 <= t < k :: Read(after, l.Slot(t)) == vals[t]
  }

  lemma LogStageStep(l: Layout, vals: seq<Block>, before: View, after: View, k: nat)
    requires LogStage(l, vals, before, after, k) && k < |vals| < l.size && l.Slot(k) in before
    ensures LogStage(l, vals, before, after[l.Slot(k) := vals[k]], k + 1)
  {
    assert l.InLog(l.Slot(k));
  }

  /** The block map after the first k blocks were installed. */
  ghost predicate InstallStage(l: Layout, blocks: seq<nat>, vals: seq<Block>, before: View, after: View, k: nat) {
    && k <= |blocks| == |vals| && after.Keys == before.Keys
    && (forall t | 0 <= t < k :: Read(after, l.At(blocks[t])) == vals[t])
    && (forall id | id in before && !(id.dev == l.dev && id.blockno in blocks[..k]) :: after[id] == before[id])
  }

  lemma InstallStageStep(l: Layout, blocks: seq<nat>, vals: seq<Block>, before: View, after: View, k: nat)
    requires InstallStage(l, blocks, vals, before, after, k) && k < |blocks| && HeaderOk(l, blocks, before.Keys)
    ensures InstallStage(l, blocks, vals, before, after[l.At(blocks[k]) := vals[k]], k + 1)
    ensures Read(after, l.Slot(k)) == Read(before, l.Slot(k))
  {
    assert Stages(0);
    assert blocks[..k + 1] == blocks[..k] + [blocks[k]];
    assert l.InLog(l.Slot(k));
  }

  /** Of the blocks pinned before, the first k listed ones are not pinned any more. */
  ghost predicate Unpinned(l: Layout, blocks: seq<nat>, before: Pins, after: Pins, k: nat) {
    && k <= |blocks|
    && (forall id | id in after ::
          id in before && after[id] == before[id] && !(id.dev == l.dev && id.blockno in blocks[..k]))
    && (forall id | id in before && !(id.dev == l.dev && id.blockno in blocks[..k]) :: id in after)
  }

  lemma UnpinnedStep(l: Layout, blocks: seq<nat>, before: Pins, after: Pins, k: nat)
    requires Unpinned(l, blocks, before, after, k) && k < |blocks|
    ensures Unpinned(l, blocks, before, after - {l.At(blocks[k])}, k + 1)
  {
    assert blocks[..k + 1] == blocks[..k] + [blocks[k]];
  }

  /** The next block to install is pinned, if anything was; log blocks are not. */
  lemma StillPinned(l: Layout, blocks: seq<nat>, before: Pins, after: Pins, k: nat)
    requires Unpinned(l, blocks, before, after, k) && k < |blocks| && Transaction(l, blocks)
    requires before == map[] || PinsAre(l, blocks, before)
    ensures l.At(blocks[k]) in after || after == map[]
    ensures l.Slot(k) !in after
  {
    assert Stages(0);
    assert l.InLog(l.Slot(k));
    forall id | id in after ensures !l.InLog(id) {
      assert id.blockno in blocks;
      var t :| 0 <= t < |blocks| && blocks[t] == id.blockno;
      assert id == l.At(blocks[t]);
    }
    assert blocks[k] !in blocks[..k];
  }

  /** The log blocks hold vals. */
  ghost predicate SlotsHold(l: Layout, vals: seq<Block>, view: View) {
    forall t | 0 <= t < |vals| :: Read(view, l.Slot(t)) == vals[t]
  }

  /** All blocks are at home: what the last write_head leaves. */
  ghost predicate Installed(l: Layout, blocks: seq<nat>, vals: seq<Block>, before: View, after: View)
    requires |blocks| == |vals|
  {
    && after.Keys == before.Keys
    && (forall t | 0 <= t < |blocks| :: Read(after, l.At(blocks[t])) == vals[t])
    && forall id | id in before && !l.InLog(id) && !(id.dev == l.dev && id.blockno in blocks) :: after[id] == before[id]
  }

  lemma InstalledStep(l: Layout, blocks: seq<nat>, vals: seq<Block>, head: Block, before: View, after: View)
    requires InstallStage(l, blocks, vals, before, after, |blocks|) && HeaderOk(l, blocks, before.Keys)
    ensures l.Header() in before && Installed(l, blocks, vals, before, after[l.Header() := head])
    ensures Read(after, l.Header()) == Read(before, l.Header())
  {
    assert Stages(0);
    assert l.InLog(l.Header()) && blocks[..|blocks|] == blocks;
  }

  /** Nothing stays pinned when all the listed blocks are installed. */
  lemma AllUnpinned(l: Layout, blocks: seq<nat>, before: Pins, after: Pins)
    requires (before == map[] || PinsAre(l, blocks, before)) && Unpinned(l, blocks, before, after, |blocks|)
    ensures after == map[]
  {
    assert Stages(0);
    assert blocks[..|blocks|] == blocks;
  }

  /** The home blocks of the two maps are the same. */
  ghost predicate SameHome(l: Layout, before: View, after: View) {
    after.Keys == before.Keys && forall id | id in before && !l.InLog(id) :: after[id] == before[id]
  }

  // ---------- the plan of a commit or a recovery ----------

  /** The writes to come, from disk d with trace tr: for a commit the log blocks and the header h; from base on the home
      blocks and the emptied header h0. view and pins are those at the start. */
  datatype Plan = Plan(l: Layout, blocks: seq<nat>, vals: seq<Block>, w: Writes, base: nat, h: Block, h0: Block,
                       view: View, pins: Pins, d: Disk, tr: Writes)

  ghost predicate PlanOk(p: Plan) {
    && |p.vals| == |p.blocks| <= LOGSIZE && |p.w| == p.base + |p.blocks| + 1 && p.l.dev != 0
    && forall x: nat | Stages(x) ::
      && HeaderOk(p.l, p.blocks, p.view.Keys) && (p.pins == map[] || PinsAre(p.l, p.blocks, p.pins))
      && InstallShape(p.l, p.blocks, p.vals, p.w, p.base) && p.w[p.base + |p.blocks|] == (p.l.Header(), p.h0)
  }

  ghost predicate CommitPlan(p: Plan) {
    && PlanOk(p) && p.base == |p.blocks| + 1
    && forall x: nat | Stages(x) ::
      && PinsAre(p.l, p.blocks, p.pins) && p.vals == ValsOf(p.l, p.blocks, p.view)
      && LogShape(p.l, p.vals, p.w) && p.w[|p.blocks|] == (p.l.Header(), p.h)
      && Listable(p.blocks) && p.h == HeaderFor(Read(p.view, p.l.Header()), p.blocks) && p.h0 == Emptied(p.h)
  }

  /** After the first k log writes. */
  ghost predicate AtLog(p: Plan, view: View, pins: Pins, k: nat) {
    pins == p.pins && forall x: nat | Stages(x) :: LogStage(p.l, p.vals, p.view, view, k)
  }

  /** After the first k home writes, mid being the block map before them. */
  ghost predicate AtInstall(p: Plan, mid: View, view: View, pins: Pins, k: nat) {
    forall x: nat | Stages(x) ::
      && mid.Keys == p.view.Keys && SlotsHold(p.l, p.vals, mid) && (p.base > 0 ==> Read(mid, p.l.Header()) == p.h)
      && InstallStage(p.l, p.blocks, p.vals, mid, view, k) && Unpinned(p.l, p.blocks, p.pins, pins, k)
  }

  /** A listed block is no log block. */
  lemma HomeOutside(l: Layout, blocks: seq<nat>, t: nat)
    requires Transaction(l, blocks) && t < |blocks|
    ensures l.At(blocks[t]) != l.Header() && l.At(blocks[t]) != l.Slot(t) && l.InLog(l.Slot(t)) && l.InLog(l.Header())
  {}

  lemma PinsOutside(l: Layout, blocks: seq<nat>, pins: Pins, id: Id)
    requires Transaction(l, blocks) && (pins == map[] || PinsAre(l, blocks, pins)) && l.InLog(id)
    ensures id !in pins
  {
    assert Stages(0);
    forall j | j in pins ensures !l.InLog(j) {
      var t :| 0 <= t < |blocks| && blocks[t] == j.blockno;
      assert j == l.At(blocks[t]);
    }
  }

  lemma PlanStarts(p: Plan)
    requires CommitPlan(p)
    ensures AtLog(p, p.view, p.pins, 0)
  {}

  /** The next log write is the plan's. */
  lemma LogTarget(p: Plan, view: View, pins: Pins, k: nat)
    requires CommitPlan(p) && AtLog(p, view, pins, k) && k < |p.blocks|
    ensures var slot, home := p.l.Slot(k), p.l.At(p.blocks[k]);
            && slot != home && slot in view && home in view && slot !in pins && home in pins
            && p.l.InLog(slot)
            && p.w[k] == (slot, Read(view, home))
            && AtLog(p, view[slot := p.w[k].1], pins - {slot}, k + 1)
  {
    assert Stages(0);
    HomeOutside(p.l, p.blocks, k);
    PinsOutside(p.l, p.blocks, p.pins, p.l.Slot(k));
    LogStageStep(p.l, p.vals, p.view, view, k);
    NotPinned(pins, p.l.Slot(k));
  }

  /** The header write after the last of them. */
  lemma HeadStage(l: Layout, blocks: seq<nat>, vals: seq<Block>, before: View, view: View, head: Block)
    requires LogStage(l, vals, before, view, |vals|) && |vals| == |blocks| < l.size && l.Header() in before
    requires forall t | 0 <= t < |vals| :: l.Slot(t) in before
    ensures var mid := view[l.Header() := head];
            && mid.Keys == before.Keys && SlotsHold(l, vals, mid) && Read(mid, l.Header()) == head
            && InstallStage(l, blocks, vals, mid, mid, 0) && SameHome(l, before, mid)
  {
    assert l.InLog(l.Header());
  }

  /** So is the header write. */
  lemma HeadTarget(p: Plan, view: View, pins: Pins)
    requires CommitPlan(p) && AtLog(p, view, pins, |p.blocks|)
    ensures Listable(p.blocks) && p.l.Header() in view && p.l.Header() !in pins && p.l.InLog(p.l.Header())
    ensures p.h == HeaderFor(view[p.l.Header()], p.blocks)
    ensures p.w[|p.blocks|] == (p.l.Header(), p.h)
    ensures var mid := view[p.l.Header() := p.h]; AtInstall(p, mid, mid, pins, 0) && SameHome(p.l, p.view, mid)
  {
    assert Stages(0);
    PinsOutside(p.l, p.blocks, p.pins, p.l.Header());
    HeadStage(p.l, p.blocks, p.vals, p.view, view, p.h);
  }

  /** One home write more. */
  lemma InstallMore(p: Plan, mid: View, view: View, pins: Pins, k: nat)
    requires PlanOk(p) && AtInstall(p, mid, view, pins, k) && k < |p.blocks|
    ensures AtInstall(p, mid, view[p.l.At(p.blocks[k]) := p.vals[k]], pins - {p.l.At(p.blocks[k])}, k + 1)
  {
    assert Stages(0);
    InstallStageStep(p.l, p.blocks, p.vals, mid, view, k);
    UnpinnedStep(p.l, p.blocks, p.pins, pins, k);
  }

  /** What it copies, and where to. */
  lemma InstallAddrs(p: Plan, mid: View, view: View, pins: Pins, k: nat)
    requires PlanOk(p) && AtInstall(p, mid, view, pins, k) && k < |p.blocks|
    ensures var slot, home := p.l.Slot(k), p.l.At(p.blocks[k]);
            slot != home && slot in view && home in view && p.l.InLog(slot)
  {
    assert Stages(0);
    HomeOutside(p.l, p.blocks, k);
  }

  lemma SlotNotListed(l: Layout, blocks: seq<nat>, t: nat)
    requires Transaction(l, blocks) && t < |blocks|
    ensures l.InLog(l.Slot(t)) && l.Slot(t).blockno !in blocks
  {
    forall b | b in blocks ensures !l.InLog(l.At(b)) {
      var s :| 0 <= s < |blocks| && blocks[s] == b;
    }
    assert l.InLog(l.At(l.Slot(t).blockno));
  }

  lemma InstallWrite(p: Plan, mid: View, view: View, pins: Pins, k: nat)
    requires PlanOk(p) && AtInstall(p, mid, view, pins, k) && k < |p.blocks|
    ensures p.w[p.base + k] == (p.l.At(p.blocks[k]), p.vals[k])
  {
    assert Stages(0);
  }

  /** The log blocks are as they were before the home writes. */
  lemma InstallSource(p: Plan, mid: View, view: View, pins: Pins, k: nat)
    requires PlanOk(p) && AtInstall(p, mid, view, pins, k) && k < |p.blocks|
    ensures Read(view, p.l.Slot(k)) == p.vals[k]
  {
    assert Stages(0);
    SlotNotListed(p.l, p.blocks, k);
    var slot := p.l.Slot(k);
    assert slot.blockno !in p.blocks[..k];
    assert Read(mid, slot) == p.vals[k] && slot in view;
  }

  lemma InstallPins(p: Plan, mid: View, view: View, pins: Pins, k: nat)
    requires PlanOk(p) && AtInstall(p, mid, view, pins, k) && k < |p.blocks|
    ensures p.l.Slot(k) !in pins && (p.l.At(p.blocks[k]) in pins || pins == map[])
  {
    assert Stages(0);
    StillPinned(p.l, p.blocks, p.pins, pins, k);
  }

  /** And each home write. */
  lemma InstallTarget(p: Plan, mid: View, view: View, pins: Pins, k: nat)
    requires PlanOk(p) && AtInstall(p, mid, view, pins, k) && k < |p.blocks|
    ensures var slot, home := p.l.Slot(k), p.l.At(p.blocks[k]);
            && slot != home && slot in view && home in view && slot !in pins && (home in pins || pins == map[])
            && p.l.InLog(slot)
            && p.w[p.base + k] == (home, Read(view, slot))
            && AtInstall(p, mid, view[home := p.w[p.base + k].1], pins - {home}, k + 1)
  {
    InstallMore(p, mid, view, pins, k);
    InstallAddrs(p, mid, view, pins, k);
    InstallWrite(p, mid, view, pins, k);
    InstallSource(p, mid, view, pins, k);
    InstallPins(p, mid, view, pins, k);
  }

  /** And the last header write. */
  lemma ClearTarget(p: Plan, mid: View, view: View, pins: Pins)
    requires PlanOk(p) && AtInstall(p, mid, view, pins, |p.blocks|)
    ensures pins == map[] && p.l.Header() in view && view[p.l.Header()] == Read(mid, p.l.Header())
    ensures p.l.InLog(p.l.Header())
    ensures p.w[p.base + |p.blocks|] == (p.l.Header(), p.h0)
    ensures Installed(p.l, p.blocks, p.vals, mid, view[p.l.Header() := p.h0])
  {
    assert Stages(0);
    InstalledStep(p.l, p.blocks, p.vals, p.h0, mid, view);
    AllUnpinned(p.l, p.blocks, p.pins, pins);
  }

  lemma MidHeader(p: Plan, mid: View, pins: Pins)
    requires CommitPlan(p) && AtInstall(p, mid, mid, pins, 0)
    ensures p.h0 == Emptied(Read(mid, p.l.Header()))
  {
    assert Stages(0);
  }

  /** Publishing and then installing what the map already says leaves every home block as it was. */
  lemma CommitKeepsView(p: Plan, mid: View, after: View)
    requires CommitPlan(p) && SameHome(p.l, p.view, mid) && Installed(p.l, p.blocks, p.vals, mid, after)
    ensures SameHome(p.l, p.view, after)
  {
    assert Stages(0);
    forall id | id in p.view && !p.l.InLog(id) ensures after[id] == p.view[id] {
      if id.dev == p.l.dev && id.blockno in p.blocks {
        var t :| 0 <= t < |p.blocks| && p.blocks[t] == id.blockno;
        assert id == p.l.At(p.blocks[t]);
      }
    }
  }

  /** The writes of commit. */
  ghost function WritesOf(l: Layout, blocks: seq<nat>, view: View): (w: Writes)
    requires Listable(blocks)
  {
    if blocks == [] then [] else CommitWrites(l, Read(view, l.Header()), blocks, ValsOf(l, blocks, view))
  }

  lemma NonePinned(l: Layout, blocks: seq<nat>, pins: Pins)
    requires PinsAre(l, blocks, pins) && |blocks| == 0
    ensures blocks == [] && pins == map[]
  {
    assert Stages(0);
  }

  /** The plan of commit. */
  ghost function PlanFor(l: Layout, blocks: seq<nat>, view: View, pins: Pins, d: Disk, tr: Writes): (p: Plan)
    requires Listable(blocks)
  {
    var head, vals := Read(view, l.Header()), ValsOf(l, blocks, view);
    var h := HeaderFor(head, blocks);
    Plan(l, blocks, vals, CommitWrites(l, head, blocks, vals), |blocks| + 1, h, Emptied(h), view, pins, d, tr)
  }

  lemma PlanForOk(l: Layout, blocks: seq<nat>, view: View, pins: Pins, d: Disk, tr: Writes)
    requires HeaderOk(l, blocks, view.Keys) && PinsAre(l, blocks, pins)
    ensures CommitPlan(PlanFor(l, blocks, view, pins, d, tr))
  {
    assert Stages(0);
    CommitWritesShape(l, Read(view, l.Header()), blocks, ValsOf(l, blocks, view));
  }

  /** The plan of recover_from_log. */
  ghost function RecoverPlan(l: Layout, view: View, d: Disk, tr: Writes): (p: Plan) {
    var head := Read(view, l.Header());
    Plan(l, HeadBlocks(head), LoggedVals(l, view), RecoverWrites(l, view), 0, head, Emptied(head), view, map[], d, tr)
  }

  lemma RecoverPlanOk(l: Layout, view: View, d: Disk, tr: Writes)
    requires HeaderOk(l, HeadBlocks(Read(view, l.Header())), view.Keys)
    ensures var p := RecoverPlan(l, view, d, tr); PlanOk(p) && AtInstall(p, view, view, map[], 0)
  {
    assert Stages(0);
    var p := RecoverPlan(l, view, d, tr);
    assert InstallStage(l, p.blocks, p.vals, view, view, 0);
  }

  // ---------- buffers for the copying ----------

  /** Some buffer is not pinned. */
  ghost predicate Spare(pins: Pins) {
    exists i :: IsSpare(pins, i)
  }

  ghost predicate IsSpare(pins: Pins, i: nat) {
    i < NBUF && forall id | id in pins :: pins[id] != i
  }

  ghost predicate AllDirty(buf: seq<Buf>) {
    forall i | 0 <= i < |buf| :: buf[i].dirty
  }

  /** No buffer can be reused: each is referenced or dirty. */
  ghost predicate AllTaken(buf: seq<Buf>) {
    forall i | 0 <= i < |buf| :: !Reusable(buf[i])
  }

  /** What is known about the supply of buffers: enough to go on, none at all, or nothing. */
  datatype Supply = Enough | Exhausted | Unknown

  ghost predicate Supplied(supply: Supply, buf: seq<Buf>, pins: Pins) {
    forall x: nat | Detail(x) ::
      && (supply == Enough ==> Idle(buf, {}) && Spare(pins))
      && (supply == Exhausted ==> AllDirty(buf))
  }

  /** What is still known after a round. */
  function Keep(supply: Supply): (r: Supply) {
    if supply == Enough then Enough else Unknown
  }

  /** Fewer than n numbers leave one below n out. */
  lemma {:induction false} Missing(s: seq<nat>, n: nat) returns (i: nat)
    requires |s| < n
    ensures i < n && i !in s
    decreases n
  {
    if n - 1 !in s {
      i := n - 1;
    } else {
      var p :| 0 <= p < |s| && s[p] == n - 1;
      var rest := s[..p] + s[p + 1..];
      i := Missing(rest, n - 1);
      assert forall q | 0 <= q < |s| && q != p :: s[q] == rest[if q < p then q else q - 1];
    }
  }

  /** Different numbers below n are at most n. */
  lemma {:induction false} AtMost(s: seq<nat>, n: nat)
    requires Distinct(s) && forall p | 0 <= p < |s| :: s[p] < n
    ensures |s| <= n
    decreases n
  {
    if n == 0 {
      assert s == [];
    } else if n - 1 !in s {
      AtMost(s, n - 1);
    } else {
      var p :| 0 <= p < |s| && s[p] == n - 1;
      AtMost(s[..p] + s[p + 1..], n - 1);
    }
  }

  /** And if there are n of them, each number below n is one. */
  lemma AllThere(s: seq<nat>, n: nat, i: nat)
    requires Distinct(s) && (forall p | 0 <= p < |s| :: s[p] < n) && |s| == n && i < n
    ensures i in s
  {
    if i !in s {
      AtMost(s + [i], n);
    }
  }

  /** The buffers of the listed blocks. */
  ghost function PinSeq(l: Layout, blocks: seq<nat>, pins: Pins): (s: seq<nat>)
    requires forall t | 0 <= t < |blocks| :: l.At(blocks[t]) in pins
    ensures |s| == |blocks| && forall t | 0 <= t < |blocks| :: s[t] == pins[l.At(blocks[t])]
  {
    seq(|blocks|, t requires 0 <= t < |blocks| => pins[l.At(blocks[t])])
  }

  /** With fewer than NBUF blocks listed there is a buffer to spare. */
  lemma FewPins(l: Layout, blocks: seq<nat>, pins: Pins)
    requires PinsAre(l, blocks, pins) && |blocks| < NBUF
    ensures Spare(pins)
  {
    assert Stages(0);
    var s := PinSeq(l, blocks, pins);
    var i := Missing(s, NBUF);
    forall id | id in pins ensures pins[id] != i {
      var t :| 0 <= t < |blocks| && blocks[t] == id.blockno;
      assert s[t] == pins[l.At(blocks[t])] && id == l.At(blocks[t]);
    }
    assert IsSpare(pins, i);
  }

  /** With NBUF blocks listed every buffer is dirty, so bget finds none for a block that is not pinned. */
  lemma FullPins(l: Layout, blocks: seq<nat>, buf: seq<Buf>, disk: Disk, view: View, pins: Pins)
    requires Coherent(buf, disk, view, pins) && PinsAre(l, blocks, pins) && |blocks| == NBUF == |buf|
    requires Transaction(l, blocks)
    ensures AllDirty(buf)
  {
    assert Stages(0);
    var s := PinSeq(l, blocks, pins);
    assert Distinct(s) by {
      forall p, q | 0 <= p < q < |s| ensures s[p] != s[q] {
        assert buf[s[p]].id == l.At(blocks[p]) && buf[s[q]].id == l.At(blocks[q]);
      }
    }
    forall i | 0 <= i < |buf| ensures buf[i].dirty {
      AllThere(s, NBUF, i);
    }
  }

  /** A spare buffer that nobody references can be reused. */
  lemma SpareReusable(buf: seq<Buf>, disk: Disk, view: View, pins: Pins, held: set<nat>, i: nat)
    requires Coherent(buf, disk, view, pins) && Idle(buf, held) && IsSpare(pins, i) && i < |buf| && i !in held
    ensures Reusable(buf[i])
  {}

  /** A block that is not pinned has no buffer if all are dirty. */
  lemma NotCached(buf: seq<Buf>, disk: Disk, view: View, pins: Pins, id: Id)
    requires Coherent(buf, disk, view, pins) && AllDirty(buf) && id !in pins
    ensures !Cached(buf, id)
  {}

  /** The loop of write_head, one block further. */
  lemma FillMore(b: Block, block: seq<nat>, i: nat)
    requires i < |block| && i < LOGSIZE && forall t | 0 <= t <= i :: block[t] < WORD_LIMIT
    ensures FillBlocks(b, block[..i + 1]) == SetWord(FillBlocks(b, block[..i]), 1 + i, block[i])
  {
    assert block[..i + 1][..i] == block[..i];
  }

  /** Unpinning leaves a spare buffer. */
  lemma SpareKept(pins: Pins, pins': Pins)
    requires Spare(pins) && forall id | id in pins' :: id in pins && pins'[id] == pins[id]
    ensures Spare(pins')
  {
    var i :| IsSpare(pins, i);
    assert IsSpare(pins', i);
  }

  /** What log_write does to the header in memory: absorb a block that is already listed, else append it. */
  function Absorb(blocks: seq<nat>, b: nat): (r: seq<nat>)
    ensures forall x :: x in r <==> x in blocks || x == b
  {
    if b in blocks then blocks else blocks + [b]
  }

  lemma AbsorbOk(l: Layout, blocks: seq<nat>, no: nat, keys: set<Id>, pins: Pins, b: nat)
    requires HeaderOk(l, blocks, keys) && PinsAre(l, blocks, pins)
    requires |blocks| < LOGSIZE && |blocks| < l.size - 1 && no < WORD_LIMIT && l.At(no) in keys && !l.InLog(l.At(no))
    ensures HeaderOk(l, Absorb(blocks, no), keys) && PinsAre(l, Absorb(blocks, no), pins[l.At(no) := b])
  {
    assert Stages(0);
  }

  class LogSystem {
    const cache: Bcache
    const lay: Layout
    // the in-memory header, lh
    var n: nat
    var block: seq<nat>
    var outstanding: nat
    var committing: bool
    ghost var view: View
    ghost var pins: Pins
    /** The buffers that other processes hold, each with its block: readers, who need no operation. */
    ghost var others: map<nat, Id>

    ghost predicate Counted()
      reads this
    {
      |block| == LOGSIZE && n <= LOGSIZE
    }

    ghost function Blocks(): (s: seq<nat>)
      requires Counted()
      reads this
    {
      block[..n]
    }

    /** Cache, disk and block map agree, with exactly the buffers `held` and those of the others locked. */
    ghost predicate Ready(held: set<nat>)
      reads this, cache
    {
      && cache.Valid() && cache.disk.Keys == view.Keys
      && Agreed(cache.buf, cache.disk, view, pins, held)
    }

    /** Nobody else holds the block, so that bread does not sleep. */
    ghost predicate Free(id: Id)
      reads this
    {
      forall i | i in others :: others[i] != id
    }

    /** Nobody else holds a log block or one of these. */
    ghost predicate Clear(blocks: seq<nat>)
      reads this
    {
      forall i | i in others :: !lay.InLog(others[i]) && !(others[i].dev == lay.dev && others[i].blockno in blocks)
    }

    /** If no buffer but those of held is referenced, nobody else holds any. */
    lemma NoOthers(held: set<nat>)
      requires Ready(held) && Idle(cache.buf, held)
      ensures others == map[] && held + others.Keys == held
    {
      assert Detail(0);
      assert forall i | 0 <= i < NBUF && i !in held :: !cache.buf[i].locked;
      assert others.Keys == {};
    }

    /** Nobody else holds a block that nobody else may hold. */
    lemma ClearFree(blocks: seq<nat>, id: Id)
      requires Clear(blocks) && (lay.InLog(id) || (id.dev == lay.dev && id.blockno in blocks))
      ensures Free(id)
    {}

    /** The state at boot, before recovery: nothing is cached, so the block map is the disk. */
    constructor (cache: Bcache, lay: Layout)
      requires cache.Valid() && lay.dev != 0 && 0 < lay.size
      requires forall id | lay.InLog(id) :: id in cache.disk
      requires forall i | 0 <= i < NBUF :: !cache.buf[i].valid && !cache.buf[i].dirty && !cache.buf[i].locked
      ensures this.cache == cache && this.lay == lay && Counted() && Ready({}) && view == cache.disk && pins == map[]
      ensures n == 0 && outstanding == 0 && !committing && others == map[]
    {
      this.cache, this.lay := cache, lay;
      n, block, outstanding, committing := 0, seq(LOGSIZE, _ => 0), 0, false;
      view, pins, others := cache.disk, map[], map[];
    }

    /** bread: the buffer holds what the block map says. None is the panic of bget. */
    method Acquire(id: Id, ghost held: set<nat>) returns (r: Option<nat>)
      requires Ready(held) && id.dev != 0 && id in cache.disk && Free(id)
      requires forall i | i in held :: 0 <= i < NBUF && cache.buf[i].id != id
      modifies cache
      ensures cache.disk == old(cache.disk) && cache.trace == old(cache.trace)
      ensures r.None? <==> !Cached(old(cache.buf), id) && forall i | 0 <= i < NBUF :: !Reusable(old(cache.buf)[i])
      ensures r.None? ==> Ready(held) && cache.buf == old(cache.buf)
      ensures r.Some? && Idle(old(cache.buf), held) ==> Idle(cache.buf, held + {r.value})
      ensures r.Some? ==>
                && r.value < NBUF && r.value !in held && r.value !in others
                && Ready(held + {r.value})
                && cache.buf[r.value].id == id && cache.buf[r.value].valid && cache.buf[r.value].data == view[id]
                && forall i | i in held :: cache.buf[i] == old(cache.buf)[i]
    {
      assert Detail(0);
      cache.OneEach();
      if Idle(cache.buf, held) { NoOthers(held); }
      var asleep;
      r, asleep := cache.Bread(id);
      if r.Some? {
        BreadSettled(old(cache.buf), cache.disk, view, pins, held + others.Keys, r.value, id);
        assert held + others.Keys + {r.value} == held + {r.value} + others.Keys;
      }
    }

    /** The holder of a buffer changes its data; the block map does not, until log_write. */
    method Edit(b: nat, data: Block, ghost held: set<nat>)
      requires Ready(held) && b in held && b < NBUF
      modifies cache`buf
      ensures Ready(held) && cache.buf == old(cache.buf)[b := old(cache.buf)[b].(data := data)]
    {
      assert Detail(0);
      HolderCoherent(cache.buf, cache.disk, view, pins, b, cache.buf[b].(data := data));
      cache.SetData(b, data);
    }

    /** What Ready says of this cache, disk and block map. */
    ghost predicate Agreed(buf: seq<Buf>, disk: Disk, view: View, pins: Pins, held: set<nat>)
      reads this
    {
      forall x: nat | Detail(x) ::
        && Settled(buf, disk, view, pins, held + others.Keys) && held !! others.Keys
        && forall i | i in others :: i < NBUF && i < |buf| && buf[i].id == others[i]
    }

    lemma StoreAgreed(b: nat, data: Block, held: set<nat>)
      requires Ready(held) && b in held && b < NBUF && cache.buf[b].id in view && cache.buf[b].id.dev != 0
      ensures var id := cache.buf[b].id;
              var buf := cache.buf[b := cache.buf[b].(data := data, valid := true, dirty := false)];
              && cache.buf[b].locked && cache.disk[id := data].Keys == view[id := data].Keys
              && Agreed(buf, cache.disk[id := data], view[id := data], pins - {id}, held)
              && (Idle(cache.buf, held) ==> Idle(buf, held))
    {
      assert Detail(0);
      cache.OneEach();
      if Idle(cache.buf, held) { NoOthers(held); }
      StoreSettled(cache.buf, cache.disk, view, pins, held + others.Keys, b, data);
    }

    /** Overwrite a held buffer and bwrite it. */
    method Store(b: nat, data: Block, ghost held: set<nat>)
      requires Ready(held) && b in held && b < NBUF && cache.buf[b].id in view && cache.buf[b].id.dev != 0
      modifies this`view, this`pins, cache
      ensures Ready(held) && (Idle(old(cache.buf), held) ==> Idle(cache.buf, held))
      ensures cache.disk == old(cache.disk)[old(cache.buf)[b].id := data]
      ensures cache.trace == old(cache.trace) + [(old(cache.buf)[b].id, data)]
      ensures view == old(view)[old(cache.buf)[b].id := data] && pins == old(pins) - {old(cache.buf)[b].id}
      ensures cache.buf == old(cache.buf)[b := old(cache.buf)[b].(data := data, valid := true, dirty := false)]
    {
      ghost var id := cache.buf[b].id;
      StoreAgreed(b, data, held);
      cache.Overwrite(b, data);
      view, pins := view[id := data], pins - {id};
    }

    /** bread by a process that has no operation. None is the panic of bget. */
    method ReaderBread(id: Id, ghost held: set<nat>) returns (r: Option<nat>)
      requires Ready(held) && id.dev != 0 && id in cache.disk && Free(id)
      requires forall i | i in held :: 0 <= i < NBUF && cache.buf[i].id != id
      modifies this`others, cache
      ensures cache.disk == old(cache.disk) && cache.trace == old(cache.trace) && Ready(held)
      ensures r.Some? ==> r.value < NBUF && others == old(others)[r.value := id] && cache.buf[r.value].data == view[id]
      ensures r.None? <==> !Cached(old(cache.buf), id) && AllTaken(old(cache.buf))
      ensures r.None? ==> others == old(others) && cache.buf == old(cache.buf)
      ensures forall i | i in held :: cache.buf[i] == old(cache.buf)[i]
    {
      r := Acquire(id, held);
      if r.Some? {
        others := others[r.value := id];
        assert held + {r.value} + old(others).Keys == held + others.Keys;
      }
    }

    /** brelse by such a process. */
    method ReaderBrelse(b: nat, ghost held: set<nat>)
      requires Ready(held) && b in others && b < NBUF && others[b].dev != 0 && others[b] in view
      requires cache.buf[b].data == view[others[b]]
      modifies this`others, cache
      ensures cache.disk == old(cache.disk) && cache.trace == old(cache.trace)
      ensures Ready(held) && others == old(others) - {b}
      ensures forall i | i in held :: i < NBUF ==> cache.buf[i] == old(cache.buf)[i]
    {
      assert Detail(0);
      others := others - {b};
      assert held + old(others).Keys == held + {b} + others.Keys;
      Release(b, held + {b});
      assert held + {b} - {b} == held;
    }

    /** brelse of a buffer that holds what the block map says. */
    method Release(b: nat, ghost held: set<nat>)
      requires Ready(held) && b in held && b < NBUF && cache.buf[b].id.dev != 0
      requires cache.buf[b].id in view && cache.buf[b].data == view[cache.buf[b].id]
      modifies cache
      ensures cache.disk == old(cache.disk) && cache.trace == old(cache.trace)
      ensures Ready(held - {b}) && (Idle(old(cache.buf), held) ==> Idle(cache.buf, held - {b}))
      ensures forall i | i in held && i != b && i < NBUF :: cache.buf[i] == old(cache.buf)[i]
    {
      assert Detail(0);
      cache.OneEach();
      ghost var n := cache.buf[b].(locked := false, refcnt := cache.buf[b].refcnt - 1);
      if Idle(cache.buf, held) { NoOthers(held); }
      ReleaseSettled(cache.buf, cache.disk, view, pins, held + others.Keys, b, n);
      assert held + others.Keys - {b} == held - {b} + others.Keys;
      cache.Brelse(b);
    }

    /** lh lists the blocks of the plan. */
    ghost predicate Lists(p: Plan)
      reads this
    {
      n == |p.blocks| <= LOGSIZE == |block| && forall t | 0 <= t < n :: block[t] == p.blocks[t]
    }

    /** Since the start of the plan the disk has received its first k writes, and nothing else. */
    ghost predicate Wrote(p: Plan, k: nat)
      reads cache
    {
      k <= |p.w| && forall x: nat | Detail(x) :: cache.disk == After(p.d, p.w, k) && cache.trace == p.tr + p.w[..k]
    }

    /** The first bread of a round, of a block that is not pinned. */
    method AcquireFirst(id: Id, ghost supply: Supply) returns (r: Option<nat>)
      requires Ready({}) && id.dev != 0 && id in view && id !in pins && Free(id) && Supplied(supply, cache.buf, pins)
      modifies cache
      ensures cache.disk == old(cache.disk) && cache.trace == old(cache.trace)
      ensures r.Some? ==>
                && r.value < NBUF && Ready({r.value})
                && cache.buf[r.value].id == id && cache.buf[r.value].valid && cache.buf[r.value].data == view[id]
      ensures (supply == Enough ==> r.Some? && Idle(cache.buf, {r.value})) && (supply == Exhausted ==> r.None?)
      ensures r.None? ==> AllTaken(cache.buf)
    {
      assert Detail(0);
      if supply == Enough {
        ghost var i :| IsSpare(pins, i);
        SpareReusable(cache.buf, cache.disk, view, pins, {}, i);
      } else if supply == Exhausted {
        NotCached(cache.buf, cache.disk, view, pins, id);
      }
      r := Acquire(id, {});
      if r.Some? {
        assert {} + {r.value} == {r.value};
      }
    }

    /** The second bread of a round: the block is pinned, and so cached, or else nothing is. */
    method AcquireSecond(id: Id, b: nat, ghost supply: Supply) returns (r: Option<nat>)
      requires Ready({b}) && b < NBUF && id.dev != 0 && id in view && cache.buf[b].id != id
      requires Free(id) && (id in pins || pins == map[])
      requires supply == Enough ==> Idle(cache.buf, {b})
      modifies cache
      ensures cache.disk == old(cache.disk) && cache.trace == old(cache.trace)
      ensures r.Some? ==>
                && r.value < NBUF && r.value != b && Ready({b, r.value}) && cache.buf[b] == old(cache.buf)[b]
                && cache.buf[r.value].id == id && cache.buf[r.value].valid && cache.buf[r.value].data == view[id]
      ensures supply == Enough ==> r.Some? && Idle(cache.buf, {b, r.value})
      ensures r.None? ==> AllTaken(cache.buf)
    {
      assert Detail(0);
      if id in pins {
        assert Cached(cache.buf, id);
      } else if supply == Enough {
        ghost var i := if b == 0 then 1 else 0;
        SpareReusable(cache.buf, cache.disk, view, pins, {b}, i);
      }
      r := Acquire(id, {b});
      if r.Some? {
        assert {b} + {r.value} == {b, r.value};
      }
    }

    /** Copy from one held buffer to another, bwrite and release both. */
    method CopyHeld(from: nat, to: nat)
      requires from < NBUF && to < NBUF && from != to && Ready({from, to}) && Sound(from) && Sound(to)
      modifies this`view, this`pins, cache
      ensures var id, data := old(cache.buf)[to].id, old(cache.buf)[from].data;
              && cache.disk == old(cache.disk)[id := data] && cache.trace == old(cache.trace) + [(id, data)]
              && view == old(view)[id := data] && pins == old(pins) - {id} && Ready({})
      ensures Idle(old(cache.buf), {from, to}) ==> Idle(cache.buf, {})
    {
      Store(to, cache.buf[from].data, {from, to});
      Release(from, {from, to});
      assert {from, to} - {from} == {to};
      Release(to, {to});
      assert {to} - {to} == {};
    }

    /** Buffer b holds what the block map says. */
    ghost predicate Sound(b: nat)
      reads this, cache
    {
      && b < |cache.buf| && cache.buf[b].id.dev != 0 && cache.buf[b].id in view
      && cache.buf[b].data == view[cache.buf[b].id]
    }

    /** The loop body of write_log (toLog) and install_trans: read both buffers, copy, write and release, as write
        number k of the plan. The result is false if bread panics, and then nothing has been written. */
    method CopyBlock(slot: Id, home: Id, toLog: bool, ghost p: Plan, ghost k: nat, ghost supply: Supply)
      returns (ok: bool)
      requires Ready({}) && slot != home && slot.dev != 0 && home.dev != 0 && slot in view && home in view
      requires Supplied(supply, cache.buf, pins) && slot !in pins && (home in pins || pins == map[])
      requires Free(slot) && Free(home) && Wrote(p, k) && k < |p.w|
      requires p.w[k] == if toLog then (slot, Read(view, home)) else (home, Read(view, slot))
      modifies this`view, this`pins, cache
      ensures if ok then
                && Ready({}) && Wrote(p, k + 1)
                && view == old(view)[p.w[k].0 := p.w[k].1] && pins == old(pins) - {p.w[k].0}
              else
                Wrote(p, k)
      ensures (supply == Enough ==> ok && Idle(cache.buf, {})) && (supply == Exhausted ==> !ok)
      ensures !ok ==> AllTaken(cache.buf)
    {
      var l := AcquireFirst(slot, supply);
      if l.None? { return false; }
      var h := AcquireSecond(home, l.value, supply);
      if h.None? { return false; }
      if toLog {
        CopyPlanned(h.value, l.value, p, k);
      } else {
        CopyPlanned(l.value, h.value, p, k);
      }
      return true;
    }

    /** The copy is write number k of the plan. */
    method CopyPlanned(from: nat, to: nat, ghost p: Plan, ghost k: nat)
      requires from < NBUF && to < NBUF && from != to && Ready({from, to}) && Sound(from) && Sound(to)
      requires Wrote(p, k) && k < |p.w| && p.w[k] == (cache.buf[to].id, cache.buf[from].data)
      modifies this`view, this`pins, cache
      ensures Ready({}) && Wrote(p, k + 1) && view == old(view)[p.w[k].0 := p.w[k].1] && pins == old(pins) - {p.w[k].0}
      ensures Idle(old(cache.buf), {from, to}) ==> Idle(cache.buf, {})
    {
      assert Detail(0);
      PrefixMore(p.tr, p.w, k);
      CopyHeld(from, to);
    }

    /** The loop body of write_log. */
    method LogOne(tail: nat, ghost next: nat, ghost p: Plan, ghost supply: Supply) returns (ok: bool)
      requires next == tail + 1
      requires CommitPlan(p) && lay == p.l && Lists(p) && tail < n && Ready({}) && Supplied(supply, cache.buf, pins)
      requires Wrote(p, tail) && AtLog(p, view, pins, tail) && Clear(p.blocks)
      modifies this`view, this`pins, cache
      ensures if ok then Ready({}) && Wrote(p, next) && AtLog(p, view, pins, next) else Wrote(p, tail)
      ensures (supply == Enough ==> ok && Supplied(Enough, cache.buf, pins)) && (supply == Exhausted ==> !ok)
      ensures !ok ==> AllTaken(cache.buf)
    {
      var slot, home := lay.Slot(tail), lay.At(block[tail]);
      LogTarget(p, view, pins, tail);
      ClearFree(p.blocks, slot);
      ClearFree(p.blocks, home);
      ok := CopyBlock(slot, home, true, p, tail, supply);
    }

    /** write_log: copy the listed blocks from the cache to the log, as the first writes of the plan. k counts the
        writes done; a panic in bread stops early. */
    method WriteLog(ghost p: Plan, ghost supply: Supply) returns (ok: bool, ghost k: nat)
      requires CommitPlan(p) && lay == p.l && Lists(p) && Ready({}) && Supplied(supply, cache.buf, pins)
      requires Wrote(p, 0) && AtLog(p, view, pins, 0) && Clear(p.blocks)
      modifies this`view, this`pins, cache
      ensures Wrote(p, k)
      ensures ok ==> k == n && Ready({}) && AtLog(p, view, pins, n)
      ensures supply == Enough ==> ok && Supplied(Enough, cache.buf, pins)
      ensures supply == Exhausted && n > 0 ==> !ok && k == 0
      ensures !ok ==> AllTaken(cache.buf)
    {
      var tail, len := 0, n;
      while tail < len
        invariant 0 <= tail <= len == n && Wrote(p, tail) && AtLog(p, view, pins, tail) && Ready({})
        invariant supply == Enough || tail == 0 ==> Supplied(supply, cache.buf, pins)
        invariant supply == Exhausted ==> tail == 0
      {
        var next := tail + 1;
        ok := LogOne(tail, next, p, if tail == 0 then supply else Keep(supply));
        if !ok { return false, tail; }
        tail := next;
      }
      return true, tail;
    }

    /** The loop body of install_trans. */
    method InstallOne(tail: nat, ghost p: Plan, ghost k: nat, ghost mid: View, ghost sure: bool) returns (ok: bool)
      requires PlanOk(p) && lay == p.l && Lists(p) && tail < n && Ready({})
      requires (sure ==> Supplied(Enough, cache.buf, pins))
      requires k == p.base + tail && Wrote(p, k) && AtInstall(p, mid, view, pins, tail) && Clear(p.blocks)
      modifies this`view, this`pins, cache
      ensures if ok then Ready({}) && Wrote(p, k + 1) && AtInstall(p, mid, view, pins, tail + 1) else Wrote(p, k)
      ensures sure ==> ok && Supplied(Enough, cache.buf, pins)
      ensures !ok ==> AllTaken(cache.buf)
    {
      var slot, home := lay.Slot(tail), lay.At(block[tail]);
      InstallTarget(p, mid, view, pins, tail);
      ClearFree(p.blocks, slot);
      ClearFree(p.blocks, home);
      ghost var pins1 := pins;
      ok := CopyBlock(slot, home, false, p, k, if sure then Enough else Unknown);
      if sure {
        assert Detail(0);
        SpareKept(pins1, pins);
      }
    }

    /** install_trans: copy the listed blocks from the log to their home location, as the writes of the plan from its
        base on; they are not pinned any more. */
    method InstallTrans(ghost p: Plan, ghost mid: View, ghost sure: bool) returns (ok: bool, ghost k: nat)
      requires PlanOk(p) && lay == p.l && Lists(p) && Ready({}) && (sure ==> Supplied(Enough, cache.buf, pins))
      requires Wrote(p, p.base) && AtInstall(p, mid, view, pins, 0) && Clear(p.blocks)
      modifies this`view, this`pins, cache
      ensures Wrote(p, k)
      ensures ok ==> k == p.base + n && Ready({}) && AtInstall(p, mid, view, pins, n)
      ensures sure ==> ok && Supplied(Enough, cache.buf, pins)
      ensures !ok ==> AllTaken(cache.buf)
    {
      ghost var base, j := p.base, p.base;
      var tail, len := 0, n;
      while tail < len
        invariant 0 <= tail <= len == n && j == base + tail && Wrote(p, j) && base == p.base
        invariant AtInstall(p, mid, view, pins, tail) && Ready({}) && (sure ==> Supplied(Enough, cache.buf, pins))
      {
        ok := InstallOne(tail, p, j, mid, sure);
        if !ok { return false, j; }
        tail, j := tail + 1, j + 1;
      }
      return true, j;
    }

    /** The loop of write_head on the header buffer. */
    method FillHeader(was: Block) returns (data: Block)
      requires Counted() && Listable(Blocks())
      ensures data == HeaderFor(was, Blocks())
    {
      data := FillList(SetWord(was, 0, n));
    }

    method FillList(head: Block) returns (data: Block)
      requires Counted() && Listable(Blocks())
      ensures data == FillBlocks(head, Blocks())
    {
      data := head;
      var i := 0;
      while i < n
        invariant 0 <= i <= n && data == FillBlocks(head, block[..i])
      {
        FillMore(head, block, i);
        data := SetWord(data, 1 + i, block[i]);
        i := i + 1;
      }
    }

    /** write_head as write number k of the plan: the header block with the count and the listed blocks filled in. */
    method WriteHead(ghost p: Plan, ghost k: nat, ghost head: Block, ghost sure: bool) returns (ok: bool)
      requires Counted() && Listable(Blocks()) && Ready({}) && (sure ==> Supplied(Enough, cache.buf, pins))
      requires lay.dev != 0 && lay.Header() in view && lay.Header() !in pins && Free(lay.Header())
      requires Wrote(p, k) && k < |p.w| && p.w[k] == (lay.Header(), head)
      requires head == HeaderFor(view[lay.Header()], Blocks())
      modifies this`view, this`pins, cache
      ensures if ok then Ready({}) && pins == old(pins) && Wrote(p, k + 1) && view == old(view)[lay.Header() := head]
              else Wrote(p, k)
      ensures sure ==> ok && Idle(cache.buf, {})
      ensures !ok ==> AllTaken(cache.buf)
    {
      assert Detail(0);
      PrefixMore(p.tr, p.w, k);
      var b := AcquireFirst(lay.Header(), if sure then Enough else Unknown);
      if b.None? { return false; }
      var data := FillHeader(cache.buf[b.value].data);
      NotPinned(pins, lay.Header());
      Store(b.value, data, {b.value});
      Release(b.value, {b.value});
      assert {b.value} - {b.value} == {};
      return true;
    }

    /** write_log and the first write_head of commit; then the log blocks hold the plan's contents, and the header names
        them. */
    method Publish(ghost p: Plan, ghost supply: Supply) returns (ok: bool, ghost k: nat)
      requires CommitPlan(p) && lay == p.l && Lists(p) && Ready({}) && Supplied(supply, cache.buf, pins)
      requires Wrote(p, 0) && AtLog(p, view, pins, 0) && Clear(p.blocks)
      modifies this`view, this`pins, cache
      ensures Wrote(p, k)
      ensures ok ==> k == n + 1 && Ready({}) && AtInstall(p, view, view, pins, 0) && SameHome(lay, p.view, view)
      ensures supply == Enough ==> ok && Supplied(Enough, cache.buf, pins)
      ensures supply == Exhausted && n > 0 ==> !ok && k == 0
      ensures !ok ==> AllTaken(cache.buf)
    {
      ok, k := WriteLog(p, supply);
      if !ok { return; }
      assert Blocks() == p.blocks;
      HeadTarget(p, view, pins);
      ClearFree(p.blocks, lay.Header());
      ok := WriteHead(p, k, p.h, supply == Enough);
      if !ok { return; }
      k := k + 1;
      if supply == Enough {
        assert Detail(0);
      }
    }

    /** log.lh.n = 0 and write_head. */
    method ClearHead(ghost p: Plan, ghost k: nat, ghost sure: bool) returns (ok: bool)
      requires n <= LOGSIZE == |block| && Ready({}) && lay.dev != 0 && lay.Header() in view && pins == map[]
      requires Free(lay.Header())
      requires sure ==> Idle(cache.buf, {})
      requires Wrote(p, k) && k < |p.w| && p.w[k] == (lay.Header(), p.h0) && p.h0 == Emptied(view[lay.Header()])
      modifies this`view, this`pins, this`n, cache
      ensures if ok then n == 0 && Ready({}) && pins == map[] && Wrote(p, k + 1) &&
              view == old(view)[lay.Header() := p.h0]
              else Wrote(p, k)
      ensures sure ==> ok && Idle(cache.buf, {})
      ensures !ok ==> AllTaken(cache.buf)
    {
      n := 0;
      HeaderForNone(view[lay.Header()], Blocks());
      assert IsSpare(pins, 0);
      ok := WriteHead(p, k, p.h0, sure);
    }

    /** install_trans, log.lh.n = 0 and write_head: the end of commit and of recover_from_log. */
    method InstallAndClear(ghost p: Plan, ghost mid: View, ghost sure: bool) returns (ok: bool, ghost k: nat)
      requires PlanOk(p) && lay == p.l && Lists(p) && Ready({}) && (sure ==> Supplied(Enough, cache.buf, pins))
      requires Wrote(p, p.base) && AtInstall(p, mid, view, pins, 0) && p.h0 == Emptied(Read(mid, lay.Header()))
      requires Clear(p.blocks)
      modifies this`view, this`pins, this`n, cache
      ensures Wrote(p, k)
      ensures ok ==> k == |p.w| && n == 0 && Ready({}) && pins == map[] && Installed(lay, p.blocks, p.vals, mid, view)
      ensures sure ==> ok && Idle(cache.buf, {})
      ensures !ok ==> AllTaken(cache.buf)
    {
      ok, k := InstallTrans(p, mid, sure);
      if !ok { return; }
      ClearTarget(p, mid, view, pins);
      ClearFree(p.blocks, lay.Header());
      if sure {
        assert Detail(0);
      }
      ok := ClearHead(p, k, sure);
      if !ok { return; }
      k := k + 1;
    }

    /** The body of commit when something is logged. */
    method CommitLogged(ghost p: Plan, ghost supply: Supply) returns (ok: bool, ghost k: nat)
      requires CommitPlan(p) && lay == p.l && Lists(p) && n > 0 && Ready({}) && Supplied(supply, cache.buf, pins)
      requires Wrote(p, 0) && view == p.view && pins == p.pins && Clear(p.blocks)
      modifies this`view, this`pins, this`n, cache
      ensures Wrote(p, k)
      ensures ok ==> k == |p.w| && n == 0 && Ready({}) && pins == map[] && SameHome(lay, p.view, view)
      ensures supply == Enough ==> ok && Idle(cache.buf, {})
      ensures supply == Exhausted ==> !ok && k == 0
      ensures !ok ==> AllTaken(cache.buf)
    {
      PlanStarts(p);
      ok, k := Publish(p, supply);
      ghost var mid := view;
      if !ok { return; }
      MidHeader(p, mid, pins);
      ok, k := InstallAndClear(p, mid, supply == Enough);
      if ok {
        CommitKeepsView(p, mid, view);
      }
    }

    /** commit: the disk receives the writes of CommitWrites in order, all of them unless bread panics. In the end
        nothing is pinned, so every block is on disk as the block map has it, and no home block of the map changed.
        Whoever holds buffers, it stops only where no buffer can be reused. If none is in use it completes exactly if
        fewer than NBUF blocks are listed; with NBUF it stops before its first write. */
    method Commit() returns (ok: bool, ghost k: nat)
      requires Counted() && HeaderOk(lay, Blocks(), view.Keys) && Ready({}) && PinsAre(lay, Blocks(), pins)
      requires Clear(Blocks())
      modifies this`view, this`pins, this`n, cache
      ensures var w := WritesOf(lay, old(Blocks()), old(view));
              && k <= |w| && cache.disk == After(old(cache.disk), w, k) && cache.trace == old(cache.trace) + w[..k]
              && (ok ==> k == |w|)
      ensures ok ==> n == 0 && Ready({}) && pins == map[] && SameHome(lay, old(view), view)
      ensures old(n) == NBUF ==> !ok && k == 0
      ensures Idle(old(cache.buf), {}) && old(n) < NBUF ==> ok && Idle(cache.buf, {})
      ensures !ok ==> AllTaken(cache.buf)
    {
      ok, k := true, 0;
      if n > 0 {
        ghost var p := PlanFor(lay, Blocks(), view, pins, cache.disk, cache.trace);
        PlanForOk(lay, Blocks(), view, pins, cache.disk, cache.trace);
        ghost var supply := Supplies();
        ok, k := CommitLogged(p, supply);
        assert Detail(0);
      } else {
        NonePinned(lay, Blocks(), pins);
      }
    }

    /** The header block is never pinned, so the disk has it as the map does. */
    lemma SameHeader()
      requires Counted() && HeaderOk(lay, Blocks(), view.Keys) && Ready({}) && PinsAre(lay, Blocks(), pins)
      requires lay.size > 0
      ensures Read(cache.disk, lay.Header()) == Read(view, lay.Header())
    {
      assert Detail(0) && Stages(0);
      assert lay.InLog(lay.Header());
      PinsOutside(lay, Blocks(), pins, lay.Header());
    }

    /** What is known about the buffers when a commit starts. */
    ghost method Supplies() returns (supply: Supply)
      requires Counted() && HeaderOk(lay, Blocks(), view.Keys) && Ready({}) && PinsAre(lay, Blocks(), pins)
      ensures Supplied(supply, cache.buf, pins)
      ensures n == NBUF ==> supply == Exhausted
      ensures n < NBUF && Idle(cache.buf, {}) ==> supply == Enough
    {
      assert Detail(0) && Stages(0);
      supply := if n == NBUF then Exhausted else if Idle(cache.buf, {}) then Enough else Unknown;
      if n < NBUF {
        FewPins(lay, Blocks(), pins);
      } else {
        FullPins(lay, Blocks(), cache.buf, cache.disk, view, pins);
      }
    }

    /** read_head on the header block: the count and the listed block numbers. */
    method ReadHead(head: Block)
      requires Counted() && HeadN(head) <= LOGSIZE
      modifies this`n, this`block
      ensures Counted() && Blocks() == HeadBlocks(head)
    {
      n := GetWord(head, 0);
      var i := 0;
      while i < n
        invariant 0 <= i <= n == HeadN(head) && |block| == LOGSIZE
        invariant forall j | 0 <= j < i :: block[j] == GetWord(head, 1 + j)
      {
        block := block[i := GetWord(head, 1 + i)];
        i := i + 1;
      }
    }

    /** bread of the header block, read_head and brelse. */
    method LoadHead(ghost sure: bool) returns (ok: bool)
      requires Counted() && Ready({}) && pins == map[] && lay.dev != 0 && lay.Header() in view && Free(lay.Header())
      requires HeadN(view[lay.Header()]) <= LOGSIZE && (sure ==> Idle(cache.buf, {}))
      modifies this`n, this`block, cache
      ensures cache.disk == old(cache.disk) && cache.trace == old(cache.trace)
      ensures ok ==> Counted() && Ready({}) && Blocks() == HeadBlocks(view[lay.Header()])
      ensures sure ==> ok && Supplied(Enough, cache.buf, pins)
      ensures !ok ==> AllTaken(cache.buf)
    {
      assert IsSpare(pins, 0);
      var b := AcquireFirst(lay.Header(), if sure then Enough else Unknown);
      if b.None? { return false; }
      ReadHead(cache.buf[b.value].data);
      Release(b.value, {b.value});
      assert {b.value} - {b.value} == {};
      ok := true;
    }

    /** recover_from_log: the disk receives the writes of RecoverWrites in order, all of them unless bread panics,
        which it does not if no buffer is in use. */
    method RecoverFromLog() returns (ok: bool, ghost k: nat)
      requires Counted() && Ready({}) && pins == map[] && lay.Header() in view
      requires HeadN(view[lay.Header()]) <= LOGSIZE
      requires HeaderOk(lay, HeadBlocks(view[lay.Header()]), view.Keys) && Clear(HeadBlocks(view[lay.Header()]))
      modifies this`view, this`pins, this`n, this`block, cache
      ensures var w := RecoverWrites(lay, old(view));
              && k <= |w| && cache.disk == After(old(cache.disk), w, k) && cache.trace == old(cache.trace) + w[..k]
              && (ok ==> k == |w|)
      ensures ok ==> n == 0 && Counted() && Ready({}) && pins == map[]
      ensures Idle(old(cache.buf), {}) ==> ok && Idle(cache.buf, {})
      ensures !ok ==> AllTaken(cache.buf)
    {
      ghost var p := RecoverPlan(lay, view, cache.disk, cache.trace);
      RecoverPlanOk(lay, view, cache.disk, cache.trace);
      ClearFree(p.blocks, lay.Header()) by { assert Stages(0); }
      ghost var sure := Idle(cache.buf, {});
      k := 0;
      ok := LoadHead(sure);
      if !ok { return; }
      assert Detail(0);
      ok, k := InstallAndClear(p, view, sure);
    }

    /** begin_op, one pass through its loop: admitted unless a commit is running or the log might not have room for one
        more operation. Otherwise the caller sleeps. */
    method BeginOp() returns (admitted: bool)
      modifies this`outstanding
      ensures admitted <==> !committing && n + (old(outstanding) + 1) * MAXOPBLOCKS <= LOGSIZE
      ensures outstanding == old(outstanding) + if admitted then 1 else 0
    {
      if committing {
        return false;
      } else if n + (outstanding + 1) * MAXOPBLOCKS > LOGSIZE {
        return false;
      } else {
        outstanding := outstanding + 1;
        return true;
      }
    }

    /** end_op up to the commit: the last operation out starts it. */
    method EndOp() returns (doCommit: bool)
      requires outstanding > 0 && !committing
      modifies this`outstanding, this`committing
      ensures outstanding == old(outstanding) - 1
      ensures doCommit == committing == (outstanding == 0)
    {
      outstanding := outstanding - 1;
      doCommit := false;
      if outstanding == 0 {
        doCommit := true;
        committing := true;
      }
    }

    /** The end of end_op, after the commit. */
    method CommitDone()
      modifies this`committing
      ensures !committing
    {
      committing := false;
    }

    /** The absorption loop of log_write. */
    method ListBlock(no: nat)
      requires Counted() && n < LOGSIZE
      modifies this`n, this`block
      ensures Counted() && Blocks() == Absorb(old(Blocks()), no)
    {
      var i := 0;
      while i < n && block[i] != no
        invariant 0 <= i <= n
        invariant no !in block[..i]
      {
        i := i + 1;
      }
      assert i < n ==> block[i] == no && no in block[..n];
      block := block[i := no];
      if i == n {
        n := n + 1;
      }
    }

    /** b->flags |= B_DIRTY: the block map takes over the buffer's data, and the buffer is pinned. */
    method MarkPinned(b: nat, ghost held: set<nat>)
      requires Ready(held) && b < NBUF && b in held && cache.buf[b].valid && cache.buf[b].id in view
      requires cache.buf[b].id.dev != 0
      modifies this`view, this`pins, cache`buf
      ensures Ready(held) && view == old(view)[old(cache.buf)[b].id := old(cache.buf)[b].data]
      ensures view.Keys == old(view).Keys && pins == old(pins)[old(cache.buf)[b].id := b]
      ensures cache.buf == old(cache.buf)[b := old(cache.buf)[b].(dirty := true)]
    {
      assert Detail(0);
      cache.OneEach();
      ghost var id, data := cache.buf[b].id, cache.buf[b].data;
      PinSettled(cache.buf, cache.disk, view, pins, held + others.Keys, b);
      KeysSame(view, id, data);
      view, pins := view[id := data], pins[id := b];
      cache.MarkDirty(b);
    }

    /** The locked section of log_write: list the block and pin its buffer. */
    method Pin(b: nat, ghost held: set<nat>, ghost id: Id, ghost data: Block)
      requires Counted() && Ready(held) && HeaderOk(lay, Blocks(), view.Keys) && PinsAre(lay, Blocks(), pins)
      requires n < LOGSIZE && n < lay.size - 1
      requires b < NBUF && b in held && cache.buf[b].valid && cache.buf[b].id == id && cache.buf[b].data == data
      requires id.dev == lay.dev && id in view && !lay.InLog(id) && id.blockno < WORD_LIMIT
      modifies this`n, this`block, this`view, this`pins, cache`buf
      ensures Counted() && Blocks() == Absorb(old(Blocks()), id.blockno) && view == old(view)[id := data]
      ensures cache.buf == old(cache.buf)[b := old(cache.buf)[b].(dirty := true)]
      ensures Ready(held) && HeaderOk(lay, Blocks(), view.Keys) && PinsAre(lay, Blocks(), pins)
    {
      AbsorbOk(lay, Blocks(), id.blockno, view.Keys, pins, b);
      ListBlock(cache.buf[b].id.blockno);
      MarkPinned(b, held);
    }

    /** log_write of a buffer that its caller holds: the block map takes over the buffer's data, the disk does not
        change. False is a panic: too big a transaction, or no operation open. */
    method LogWrite(b: nat, ghost held: set<nat>) returns (ok: bool)
      requires Counted() && Ready(held) && HeaderOk(lay, Blocks(), view.Keys) && PinsAre(lay, Blocks(), pins)
      requires b < NBUF && b in held && cache.buf[b].valid && cache.buf[b].id.dev == lay.dev
      requires cache.buf[b].id in view && !lay.InLog(cache.buf[b].id) && cache.buf[b].id.blockno < WORD_LIMIT
      modifies this`n, this`block, this`view, this`pins, cache`buf
      ensures ok <==> old(n) < LOGSIZE && old(n) < lay.size - 1 && outstanding >= 1
      ensures ok ==>
                && Counted() && Blocks() == Absorb(old(Blocks()), old(cache.buf)[b].id.blockno)
                && view == old(view)[old(cache.buf)[b].id := old(cache.buf)[b].data]
                && Ready(held) && HeaderOk(lay, Blocks(), view.Keys) && PinsAre(lay, Blocks(), pins)
      ensures ok ==> cache.buf == old(cache.buf)[b := old(cache.buf)[b].(dirty := true)]
      ensures !ok ==> n == old(n) && block == old(block) && view == old(view) && pins == old(pins)
      ensures !ok ==> cache.buf == old(cache.buf) && Ready(held)
      ensures cache.disk == old(cache.disk) && cache.trace == old(cache.trace)
    {
      if n >= LOGSIZE || n >= lay.size - 1 {
        return false;
      }
      if outstanding < 1 {
        return false;
      }
      Pin(b, held, cache.buf[b].id, cache.buf[b].data);
      return true;
    }
  }
}
