/** The buffer cache of bio.c: NBUF buffers on a circular doubly linked list that is kept in order of last
    release, above a disk that is written one block at a time. A pointer to a buffer is its index in
    bcache.buf; HEAD is the list head. */
module BufferCache {
  import opened Bytes
  import opened Guards
  import opened Options
  import opened Params

  const HEAD := NBUF

  datatype Id = Id(dev: nat, blockno: nat)

  datatype Buf = Buf(id: Id, valid: bool, dirty: bool, refcnt: nat, locked: bool, data: Block)

  /** A buffer that bget may give to another block. */
  predicate Reusable(b: Buf) {
    b.refcnt == 0 && !b.dirty
  }

  // ---------- the linked list ----------

  ghost function Ring(order: seq<nat>): (r: seq<nat>) {
    [HEAD] + order + [HEAD]
  }

  ghost predicate Distinct(s: seq<nat>) {
    forall j, k | 0 <= j < k < |s| :: s[j] != s[k]
  }

  /** next and prev link HEAD and the buffers of `order`, in that order, into one circle. */
  ghost predicate Linked(next: seq<nat>, prev: seq<nat>, order: seq<nat>) {
    && |next| == NBUF + 1 && |prev| == NBUF + 1
    && (forall k | 0 <= k < |order| :: order[k] < NBUF)
    && Distinct(order)
    && var r := Ring(order);
       forall k | 0 <= k <= |order| :: next[r[k]] == r[k + 1] && prev[r[k + 1]] == r[k]
  }

  ghost function Without(s: seq<nat>, p: nat): (r: seq<nat>)
    requires p < |s|
  {
    s[..p] + s[p + 1..]
  }

  /** b->next->prev = b->prev; b->prev->next = b->next removes b from the circle and nothing else. */
  lemma Unlink(next: seq<nat>, prev: seq<nat>, order: seq<nat>, p: nat)
    requires Linked(next, prev, order) && p < |order|
    ensures var b := order[p];
            && next[b] <= NBUF && prev[b] <= NBUF
            && Linked(next[prev[b] := next[b]], prev[next[b] := prev[b]], Without(order, p))
  {
    var b, r, rest := order[p], Ring(order), Without(order, p);
    assert r[p + 1] == b && next[r[p + 1]] == r[p + 2] && next[r[p]] == r[p + 1];
    var r' := Ring(rest);
    assert r' == r[..p + 1] + r[p + 2..];
    var next', prev' := next[prev[b] := next[b]], prev[next[b] := prev[b]];
    forall k | 0 <= k <= |rest| ensures next'[r'[k]] == r'[k + 1] && prev'[r'[k + 1]] == r'[k] {
      assert next[r[k]] == r[k + 1] && next[r[k + 1]] == r[k + 2];
    }
  }

  /** The four assignments that put b right after the head. */
  lemma PushFront(next: seq<nat>, prev: seq<nat>, order: seq<nat>, b: nat)
    requires Linked(next, prev, order) && b < NBUF && b !in order
    ensures next[HEAD] <= NBUF
    ensures Linked(next[b := next[HEAD]][HEAD := b], prev[b := HEAD][next[HEAD] := b], [b] + order)
  {
    var r, r' := Ring(order), Ring([b] + order);
    assert next[r[0]] == r[1];
    var next', prev' := next[b := next[HEAD]][HEAD := b], prev[b := HEAD][next[HEAD] := b];
    forall k | 0 <= k <= |order| + 1 ensures next'[r'[k]] == r'[k + 1] && prev'[r'[k + 1]] == r'[k] {
      if k >= 1 {
        assert r'[k] == (if k == 1 then b else r[k - 1]) && r'[k + 1] == r[k];
        assert next[r[k - 1]] == r[k];
      }
    }
  }

  // ---------- what a cache promises ----------

  /** Every buffer index occurs in the list. */
  ghost predicate Complete(order: seq<nat>) {
    |order| == NBUF && forall i | 0 <= i < NBUF :: i in order
  }

  /** The list runs from the most to the least recently released buffer. */
  ghost predicate ByRelease(order: seq<nat>, stamp: seq<nat>, clock: nat) {
    && |stamp| == NBUF
    && (forall k | 0 <= k < |order| :: order[k] < NBUF && stamp[order[k]] < clock)
    && forall j, k | 0 <= j < k < |order| :: stamp[order[k]] < stamp[order[j]]
  }

  /** Moving a released buffer to the front keeps the list complete and ordered by release. */
  lemma MoveToFrontKeepsOrder(order: seq<nat>, p: nat, stamp: seq<nat>, clock: nat)
    requires p < |order| && Complete(order) && ByRelease(order, stamp, clock) && Distinct(order)
    ensures order[p] !in Without(order, p)
    ensures Complete([order[p]] + Without(order, p))
    ensures ByRelease([order[p]] + Without(order, p), stamp[order[p] := clock], clock + 1)
  {
    var rest := Without(order, p);
    forall k | 0 <= k < |rest| ensures rest[k] == order[if k < p then k else k + 1] {}
    forall i | 0 <= i < NBUF ensures i in [order[p]] + rest {
      assert i in order;
      var k :| 0 <= k < |order| && order[k] == i;
      if k != p {
        assert rest[if k < p then k else k - 1] == i;
      }
    }
  }

  /** At most one buffer holds a block of a device other than 0. */
  ghost predicate Unique(buf: seq<Buf>) {
    forall i, j | 0 <= i < j < |buf| && buf[i].id == buf[j].id :: buf[i].id.dev == 0
  }

  /** An unlocked clean buffer holds what the disk holds. */
  ghost predicate Agrees(buf: seq<Buf>, disk: map<Id, Block>) {
    forall i | 0 <= i < |buf| && buf[i].valid && !buf[i].dirty && !buf[i].locked ::
      buf[i].id in disk && buf[i].data == disk[buf[i].id]
  }

  /** A locked buffer is referenced, and a buffer waiting to be written has been read. */
  ghost predicate Held(buf: seq<Buf>) {
    forall i | 0 <= i < |buf| && (buf[i].locked || buf[i].dirty) ::
      (buf[i].locked ==> buf[i].refcnt > 0) && (buf[i].dirty ==> buf[i].valid)
  }

  /** The index of the buffer that holds `id`, if any. */
  ghost predicate Cached(buf: seq<Buf>, id: Id) {
    exists i :: 0 <= i < |buf| && buf[i].id == id
  }

  /** The buffer bread returns for `id`, given the buffer it took: the one that held `id` before, or a reused one. */
  function Loaded(b: Buf, id: Id, disk: map<Id, Block>): (r: Buf)
    requires id in disk
  {
    if b.id == id then
      b.(refcnt := b.refcnt + 1, locked := true, valid := true, data := if b.valid then b.data else disk[id])
    else
      Buf(id, true, false, 1, true, disk[id])
  }

  /** A buffer for which one more process waits. */
  function Waited(b: Buf): (r: Buf) {
    b.(refcnt := b.refcnt + 1)
  }

  class Bcache {
    var disk: map<Id, Block>
    /** Every single-block disk write so far, oldest first. */
    ghost var trace: seq<(Id, Block)>
    var buf: seq<Buf>
    var next: seq<nat>
    var prev: seq<nat>
    ghost var order: seq<nat>
    ghost var stamp: seq<nat>
    ghost var clock: nat

    ghost predicate Valid()
      reads this
    {
      && |buf| == |order| == |stamp| == NBUF && Held(buf)
      && forall x: nat | Inside(x) ::
        && Linked(next, prev, order) && Complete(order) && ByRelease(order, stamp, clock)
        && Unique(buf) && Agrees(buf, disk)
    }

    lemma OneEach()
      requires Valid()
      ensures Unique(buf)
    {
      assert Inside(0);
    }

    /** binit: every buffer starts out unused and is pushed on the front in turn. */
    constructor (disk: map<Id, Block>)
      ensures Valid() && this.disk == disk && trace == []
      ensures buf == seq(NBUF, _ => Buf(Id(0, 0), false, false, 0, false, ZeroBlock()))
      ensures order == seq(NBUF, k requires 0 <= k < NBUF => NBUF - 1 - k)
    {
      this.disk, trace := disk, [];
      buf := seq(NBUF, _ => Buf(Id(0, 0), false, false, 0, false, ZeroBlock()));
      next, prev := seq(NBUF + 1, _ => HEAD), seq(NBUF + 1, _ => HEAD);
      order, stamp, clock := [], seq(NBUF, i => i), NBUF;
      new;
      var b := 0;
      while b < NBUF
        invariant 0 <= b <= NBUF
        invariant Linked(next, prev, order)
        invariant order == seq(b, k requires 0 <= k < b => b - 1 - k)
        invariant this.disk == disk && trace == [] && stamp == seq(NBUF, i => i) && clock == NBUF
        invariant buf == seq(NBUF, _ => Buf(Id(0, 0), false, false, 0, false, ZeroBlock()))
      {
        PushFront(next, prev, order, b);
        next := next[b := next[HEAD]];
        prev := prev[b := HEAD];
        prev := prev[next[HEAD] := b];
        next := next[HEAD := b];
        order := [b] + order;
        b := b + 1;
      }
      forall i | 0 <= i < NBUF ensures i in order {
        assert order[NBUF - 1 - i] == i;
      }
    }

    /** The first loop of bget, from the most recently released buffer on. */
    method FindCached(id: Id) returns (r: Option<nat>)
      requires Valid()
      ensures r.None? <==> !Cached(buf, id)
      ensures r.Some? ==> r.value < NBUF && buf[r.value].id == id
    {
      assert Inside(0);
      ghost var ring := Ring(order);
      ghost var k := 1;
      assert next[ring[0]] == ring[1];
      var b := next[HEAD];
      while b != HEAD
        invariant 1 <= k <= NBUF + 1 && b == ring[k]
        invariant forall j | 0 <= j < k - 1 :: buf[order[j]].id != id
        decreases NBUF - k
      {
        assert order[k - 1] == b;
        if buf[b].id == id {
          return Some(b);
        }
        assert next[ring[k]] == ring[k + 1];
        b := next[b];
        k := k + 1;
      }
      forall i | 0 <= i < NBUF ensures buf[i].id != id {
        assert i in order;
      }
      return None;
    }

    /** The second loop of bget, from the least recently released buffer back. */
    method FindReusable() returns (r: Option<nat>)
      requires Valid()
      ensures r.None? <==> forall i | 0 <= i < NBUF :: !Reusable(buf[i])
      ensures r.Some? ==>
                && r.value < NBUF && Reusable(buf[r.value])
                && forall i | 0 <= i < NBUF && Reusable(buf[i]) :: stamp[r.value] <= stamp[i]
    {
      assert Inside(0);
      ghost var ring := Ring(order);
      ghost var k := NBUF;
      assert next[ring[NBUF]] == ring[NBUF + 1];
      var b := prev[HEAD];
      while b != HEAD
        invariant 0 <= k <= NBUF && b == ring[k]
        invariant forall j | k <= j < NBUF :: !Reusable(buf[order[j]])
        decreases k
      {
        assert order[k - 1] == b;
        if buf[b].refcnt == 0 && !buf[b].dirty {
          forall i | 0 <= i < NBUF && Reusable(buf[i]) ensures stamp[b] <= stamp[i] {
            assert i in order;
          }
          return Some(b);
        }
        assert next[ring[k - 1]] == ring[k];
        b := prev[b];
        k := k - 1;
      }
      forall i | 0 <= i < NBUF ensures !Reusable(buf[i]) {
        assert i in order;
      }
      return None;
    }

    /** bget up to acquiresleep: a hit gains a reference, a miss takes over the least recently released reusable
        buffer, and None is the panic "no buffers". */
    method Bget(id: Id) returns (r: Option<nat>)
      requires Valid()
      modifies this`buf
      ensures Valid()
      ensures r.None? <==> !Cached(old(buf), id) && forall i | 0 <= i < NBUF :: !Reusable(old(buf)[i])
      ensures r.None? ==> buf == old(buf)
      ensures r.Some? && Cached(old(buf), id) ==>
                && r.value < NBUF && old(buf)[r.value].id == id
                && buf == old(buf)[r.value := old(buf)[r.value].(refcnt := old(buf)[r.value].refcnt + 1)]
      ensures r.Some? && !Cached(old(buf), id) ==>
                && r.value < NBUF && Reusable(old(buf)[r.value])
                && (forall i | 0 <= i < NBUF && Reusable(old(buf)[i]) :: stamp[r.value] <= stamp[i])
                && buf == old(buf)[r.value := old(buf)[r.value].(id := id, valid := false, dirty := false, refcnt := 1)]
    {
      assert Inside(0);
      r := FindCached(id);
      if r.Some? {
        buf := buf[r.value := buf[r.value].(refcnt := buf[r.value].refcnt + 1)];
        return;
      }
      r := FindReusable();
      if r.Some? {
        buf := buf[r.value := buf[r.value].(id := id, valid := false, dirty := false, refcnt := 1)];
      }
    }

    /** bread: bget, acquiresleep, and a disk read unless B_VALID. If somebody holds the buffer of the block, the caller
        sleeps with its reference, which keeps bget away, and goes on with Awake. */
    method Bread(id: Id) returns (r: Option<nat>, asleep: bool)
      requires Valid() && id.dev != 0 && id in disk
      modifies this`buf
      ensures Valid()
      ensures r.None? <==> !Cached(old(buf), id) && forall i | 0 <= i < NBUF :: !Reusable(old(buf)[i])
      ensures r.None? ==> buf == old(buf) && !asleep
      ensures r.Some? ==>
                && r.value < NBUF && asleep == old(buf)[r.value].locked
                && (old(buf)[r.value].id == id || (!Cached(old(buf), id) && Reusable(old(buf)[r.value])))
                && buf == old(buf)[r.value := if asleep then Waited(old(buf)[r.value])
                                              else Loaded(old(buf)[r.value], id, disk)]
      ensures asleep ==> r.Some? && buf[r.value].id == id
    {
      assert Inside(0);
      r := Bget(id);
      asleep := r.Some? && buf[r.value].locked;
      if r.Some? && !asleep {
        Lock(r.value);
      }
    }

    /** acquiresleep of a buffer that is not locked, and the rest of bread. */
    method Lock(b: nat)
      requires Valid() && b < NBUF && !buf[b].locked && buf[b].refcnt > 0 && buf[b].id in disk
      modifies this`buf
      ensures Valid()
      ensures buf == old(buf)[b := old(buf)[b].(
                       locked := true, valid := true,
                       data := if old(buf)[b].valid then old(buf)[b].data else disk[old(buf)[b].id])]
    {
      assert Inside(0);
      buf := buf[b := buf[b].(locked := true)];
      if !buf[b].valid {
        buf := buf[b := buf[b].(valid := true, data := disk[buf[b].id])];
      }
    }

    /** The rest of bread for a process that slept, once the buffer has been released: it gets what the last holder
        left, or what is on disk. */
    method Awake(b: nat)
      requires Valid() && b < NBUF && !buf[b].locked && buf[b].refcnt > 0 && buf[b].id in disk
      modifies this`buf
      ensures Valid() && buf[b].locked && buf[b].valid && buf[b].id == old(buf)[b].id
      ensures !buf[b].dirty && !old(buf)[b].dirty ==> buf[b].data == disk[buf[b].id]
      ensures old(buf)[b].valid ==> buf[b].data == old(buf)[b].data
      ensures forall i | 0 <= i < NBUF && i != b :: buf[i] == old(buf)[i]
    {
      assert Inside(0);
      Lock(b);
    }

    /** The holder of a buffer changes its data. */
    method SetData(b: nat, data: Block)
      requires Valid() && b < NBUF && buf[b].locked
      modifies this`buf
      ensures Valid() && buf == old(buf)[b := old(buf)[b].(data := data)]
    {
      assert Inside(0);
      buf := buf[b := buf[b].(data := data)];
    }

    /** log_write's b->flags |= B_DIRTY: from now on bget leaves the buffer alone. */
    method MarkDirty(b: nat)
      requires Valid() && b < NBUF && buf[b].locked && buf[b].valid
      modifies this`buf
      ensures Valid() && buf == old(buf)[b := old(buf)[b].(dirty := true)]
    {
      assert Inside(0);
      buf := buf[b := buf[b].(dirty := true)];
    }

    /** bwrite: one block reaches the disk, and the buffer is clean again. */
    method Bwrite(b: nat)
      requires Valid() && b < NBUF && buf[b].locked && buf[b].id.dev != 0
      modifies this`buf, this`disk, this`trace
      ensures Valid()
      ensures disk == old(disk)[old(buf)[b].id := old(buf)[b].data]
      ensures trace == old(trace) + [(old(buf)[b].id, old(buf)[b].data)]
      ensures buf == old(buf)[b := old(buf)[b].(valid := true, dirty := false)]
    {
      assert Inside(0);
      buf := buf[b := buf[b].(dirty := true)];
      disk := disk[buf[b].id := buf[b].data];
      trace := trace + [(buf[b].id, buf[b].data)];
      buf := buf[b := buf[b].(valid := true, dirty := false)];
    }

    /** Both. */
    method Overwrite(b: nat, data: Block)
      requires Valid() && b < NBUF && buf[b].locked && buf[b].id.dev != 0
      modifies this`buf, this`disk, this`trace
      ensures Valid() && disk == old(disk)[old(buf)[b].id := data] && trace == old(trace) + [(old(buf)[b].id, data)]
      ensures buf == old(buf)[b := old(buf)[b].(data := data, valid := true, dirty := false)]
    {
      SetData(b, data);
      Bwrite(b);
    }

    /** The relinking at the end of brelse. */
    method MoveToFront(b: nat, ghost p: nat)
      requires Linked(next, prev, order) && Complete(order) && ByRelease(order, stamp, clock)
      requires p < NBUF && order[p] == b
      modifies this`next, this`prev, this`order, this`stamp, this`clock
      ensures Linked(next, prev, order) && Complete(order) && ByRelease(order, stamp, clock)
      ensures order == [b] + Without(old(order), p) && stamp == old(stamp)[b := old(clock)]
    {
      ghost var rest := Without(order, p);
      Unlink(next, prev, order, p);
      MoveToFrontKeepsOrder(order, p, stamp, clock);
      prev := prev[next[b] := prev[b]];
      next := next[prev[b] := next[b]];
      assert prev[b] == old(prev[b]);
      PushFront(next, prev, rest, b);
      next := next[b := next[HEAD]];
      prev := prev[b := HEAD];
      prev := prev[next[HEAD] := b];
      next := next[HEAD := b];
      order, stamp, clock := [b] + rest, stamp[b := clock], clock + 1;
    }

    /** brelse: the last holder moves the buffer to the front of the list. Whoever changed the data has logged it
        or written it by then. */
    method Brelse(b: nat)
      requires Valid() && b < NBUF && buf[b].locked
      requires buf[b].valid && !buf[b].dirty ==> buf[b].id in disk && buf[b].data == disk[buf[b].id]
      modifies this`buf, this`next, this`prev, this`order, this`stamp, this`clock
      ensures Valid()
      ensures buf == old(buf)[b := old(buf)[b].(locked := false, refcnt := old(buf)[b].refcnt - 1)]
      ensures buf[b].refcnt > 0 ==> order == old(order) && stamp == old(stamp)
      ensures buf[b].refcnt == 0 ==>
                && stamp == old(stamp)[b := old(clock)]
                && exists p :: 0 <= p < NBUF && old(order)[p] == b && order == [b] + Without(old(order), p)
    {
      assert Inside(0);
      buf := buf[b := buf[b].(locked := false)];
      buf := buf[b := buf[b].(refcnt := buf[b].refcnt - 1)];
      if buf[b].refcnt == 0 {
        assert b in order;
        ghost var p :| 0 <= p < NBUF && order[p] == b;
        MoveToFront(b, p);
      }
    }
  }
}
