/** pipe.c: a ring buffer of 512 bytes with 32-bit counters, and the processes that wait at its two ends. What pipewrite
    and piperead do between taking the lock and giving it up, by return or by sleep, is one section. */
module Pipe {
  import opened Words

  const PIPESIZE := 512

  // ---------- the pipe as a queue ----------

  /** All bytes ever written, and all ever read. */
  datatype Fifo = Fifo(sent: seq<Byte>, received: seq<Byte>, readopen: bool, writeopen: bool)

  ghost predicate FifoOk(f: Fifo) {
    f.received <= f.sent && |f.sent| - |f.received| <= PIPESIZE
  }

  /** How a section ends: the call returns with success or -1, or the process goes to sleep. */
  datatype Outcome = Done | Failed | Asleep

  function Take(s: seq<Byte>, n: int): (t: seq<Byte>) {
    if n <= 0 then [] else if n < |s| then s[..n] else s
  }

  function Drop(s: seq<Byte>, n: nat): (t: seq<Byte>) {
    if n <= |s| then s[n..] else []
  }

  /** A section of pipewrite that has the rest of its bytes to write: as many go in as there is room for. */
  function WriteSection(f: Fifo, rest: seq<Byte>, killed: bool): (r: (Fifo, seq<Byte>, Outcome)) {
    var put := Take(rest, PIPESIZE - (|f.sent| - |f.received|));
    var left := Drop(rest, |put|);
    (f.(sent := f.sent + put), left, if left == [] then Done else if !f.readopen || killed then Failed else Asleep)
  }

  /** A section of piperead: it takes up to n bytes, unless there is nothing to take and more may come. */
  function ReadSection(f: Fifo, n: int, killed: bool): (r: (Fifo, seq<Byte>, Outcome)) {
    var queued := Drop(f.sent, |f.received|);
    if queued == [] && f.writeopen then (f, [], if killed then Failed else Asleep)
    else (f.(received := f.received + Take(queued, n)), Take(queued, n), Done)
  }

  lemma WriteSectionOk(f: Fifo, rest: seq<Byte>, killed: bool)
    requires FifoOk(f)
    ensures FifoOk(WriteSection(f, rest, killed).0)
  {}

  lemma ReadSectionOk(f: Fifo, n: int, killed: bool)
    requires FifoOk(f)
    ensures FifoOk(ReadSection(f, n, killed).0)
  {
    var got := ReadSection(f, n, killed).1;
    assert f.received + got <= f.sent;
  }

  /** The section that put in addr[i..j], where it had to stop. */
  lemma WriteStops(f: Fifo, addr: seq<Byte>, i: nat, j: nat, killed: bool)
    requires FifoOk(f) && i <= j <= |addr| && j - i <= PIPESIZE - (|f.sent| - |f.received|)
    requires j == |addr| || j - i == PIPESIZE - (|f.sent| - |f.received|)
    ensures WriteSection(f, addr[i..], killed) ==
              (f.(sent := f.sent + addr[i..j]), addr[j..],
               if j == |addr| then Done else if !f.readopen || killed then Failed else Asleep)
  {
    assert addr[i..][..j - i] == addr[i..j] && addr[i..][j - i..] == addr[j..];
    assert j == |addr| ==> addr[i..j] == addr[i..];
  }

  /** The section that took i bytes, where it had to stop. */
  lemma ReadStops(f: Fifo, n: int, i: nat, killed: bool)
    requires FifoOk(f) && i <= |f.sent| - |f.received| && (|f.sent| == |f.received| ==> !f.writeopen)
    requires (i < n && i == |f.sent| - |f.received|) || i == n || (n <= 0 && i == 0)
    ensures var got := f.sent[|f.received|..|f.received| + i];
            ReadSection(f, n, killed) == (f.(received := f.received + got), got, Done)
  {
    var queued := f.sent[|f.received|..];
    assert queued[..i] == f.sent[|f.received|..|f.received| + i];
    assert i == |queued| ==> queued[..i] == queued;
  }

  // ---------- the ring ----------

  /** The counters are the numbers of bytes sent and received, as 32-bit numbers, and the ring holds the bytes between
      them. */
  ghost predicate RingOk(data: seq<Byte>, nread: nat, nwrite: nat, f: Fifo) {
    && FifoOk(f) && |data| == PIPESIZE
    && nread == |f.received| % WORD_LIMIT && nwrite == |f.sent| % WORD_LIMIT
    && forall k | |f.received| <= k < |f.sent| :: data[k % PIPESIZE] == f.sent[k]
  }

  /** 512 divides the range of the counters, so that indices survive the wrap-around. */
  lemma WrapIndex(n: nat)
    ensures n % WORD_LIMIT % PIPESIZE == n % PIPESIZE && (n + 1) % WORD_LIMIT == (n % WORD_LIMIT + 1) % WORD_LIMIT
  {}

  /** The tests of the code, on wrapped counters, say what they should. */
  lemma CounterTests(r: nat, w: nat)
    requires r <= w <= r + PIPESIZE
    ensures w % WORD_LIMIT == (r % WORD_LIMIT + PIPESIZE) % WORD_LIMIT <==> w == r + PIPESIZE
    ensures r % WORD_LIMIT == w % WORD_LIMIT <==> r == w
  {}

  lemma RingPut(data: seq<Byte>, nread: nat, nwrite: nat, f: Fifo, c: Byte)
    requires RingOk(data, nread, nwrite, f) && |f.sent| < |f.received| + PIPESIZE
    ensures RingOk(data[nwrite % PIPESIZE := c], nread, (nwrite + 1) % WORD_LIMIT, f.(sent := f.sent + [c]))
  {
    WrapIndex(|f.sent|);
    var g := f.(sent := f.sent + [c]);
    var data' := data[nwrite % PIPESIZE := c];
    forall k | |g.received| <= k < |g.sent| ensures data'[k % PIPESIZE] == g.sent[k] {
      assert k < |f.sent| ==> k % PIPESIZE != |f.sent| % PIPESIZE;
    }
  }

  lemma RingGet(data: seq<Byte>, nread: nat, nwrite: nat, f: Fifo)
    requires RingOk(data, nread, nwrite, f) && |f.received| < |f.sent|
    ensures data[nread % PIPESIZE] == f.sent[|f.received|]
    ensures RingOk(data, (nread + 1) % WORD_LIMIT, nwrite, f.(received := f.received + [f.sent[|f.received|]]))
  {
    WrapIndex(|f.received|);
  }

  class Ring {
    const data: array<Byte>
    var nread: nat
    var nwrite: nat
    var readopen: bool
    var writeopen: bool
    ghost var sent: seq<Byte>
    ghost var received: seq<Byte>

    ghost function Abs(): (f: Fifo)
      reads this
    {
      Fifo(sent, received, readopen, writeopen)
    }

    ghost predicate Valid()
      reads this, data
    {
      RingOk(data[..], nread, nwrite, Abs())
    }

    /** pipealloc */
    constructor ()
      ensures Valid() && fresh(data) && Abs() == Fifo([], [], true, true)
    {
      data := new Byte[PIPESIZE](_ => 0);
      nread, nwrite, readopen, writeopen, sent, received := 0, 0, true, true, [], [];
    }

    /** p->data[p->nwrite++ % PIPESIZE] = c */
    method Put(c: Byte)
      requires Valid() && |sent| < |received| + PIPESIZE
      modifies this, data
      ensures Valid() && Abs() == old(Abs()).(sent := old(sent) + [c])
    {
      RingPut(data[..], nread, nwrite, Abs(), c);
      data[nwrite % PIPESIZE] := c;
      nwrite := (nwrite + 1) % WORD_LIMIT;
      sent := sent + [c];
    }

    /** p->data[p->nread++ % PIPESIZE] */
    method Get() returns (c: Byte)
      requires Valid() && |received| < |sent|
      modifies this
      ensures Valid() && c == old(sent[|received|]) && Abs() == old(Abs()).(received := old(received) + [c])
    {
      RingGet(data[..], nread, nwrite, Abs());
      c := data[nread % PIPESIZE];
      nread := (nread + 1) % WORD_LIMIT;
      received := received + [c];
    }

    /** The bytes in the pipe. */
    ghost function Queued(): (n: int)
      reads this
    {
      |sent| - |received|
    }

    /** pipewrite, from byte i on, until it returns or sleeps at byte j: all bytes go in that fit. If some are left, it
        fails when nobody can read or the process is killed, and sleeps otherwise. */
    method Pipewrite(addr: seq<Byte>, i: nat, killed: bool) returns (j: nat, r: Outcome)
      requires Valid() && i <= |addr|
      modifies this, data
      ensures Valid() && i <= j <= |addr| && (Abs(), addr[j..], r) == WriteSection(old(Abs()), addr[i..], killed)
      ensures Abs() == old(Abs()).(sent := old(sent) + addr[i..j])
      ensures j == |addr| || (j < |addr| && Queued() == PIPESIZE)
      ensures r == if j == |addr| then Done else if !readopen || killed then Failed else Asleep
    {
      ghost var f := Abs();
      j := i;
      while j < |addr|
        invariant i <= j <= |addr| && Valid() && Abs() == f.(sent := f.sent + addr[i..j])
      {
        CounterTests(|received|, |sent|);
        if nwrite == (nread + PIPESIZE) % WORD_LIMIT {
          WriteStops(f, addr, i, j, killed);
          return j, if !readopen || killed then Failed else Asleep;
        }
        Put(addr[j]);
        assert addr[i..j] + [addr[j]] == addr[i..j + 1];
        j := j + 1;
      }
      WriteStops(f, addr, i, j, killed);
      return j, Done;
    }

    /** piperead, until it returns or sleeps: it takes the n oldest bytes, or all there are. If there are none and the
        write end is open, it fails when the process is killed and sleeps otherwise. */
    method Piperead(n: int, killed: bool) returns (got: seq<Byte>, r: Outcome)
      requires Valid()
      modifies this
      ensures Valid() && (Abs(), got, r) == ReadSection(old(Abs()), n, killed)
      ensures Abs() == old(Abs()).(received := old(received) + got) && received <= sent
      ensures |got| <= n || got == []
      ensures r == Done ==> |got| == n || n < 0 || Queued() == 0
      ensures r == if old(Queued()) == 0 && writeopen then (if killed then Failed else Asleep) else Done
    {
      ghost var f := Abs();
      got := [];
      CounterTests(|received|, |sent|);
      if nread == nwrite && writeopen {
        return got, if killed then Failed else Asleep;
      }
      var i := 0;
      while i < n
        invariant 0 <= i && (i <= n || i == 0) && i <= |f.sent| - |f.received| && Valid()
        invariant got == f.sent[|f.received|..|f.received| + i] && Abs() == f.(received := f.received + got)
      {
        CounterTests(|received|, |sent|);
        if nread == nwrite { break; }
        var c := Get();
        got := got + [c];
        i := i + 1;
      }
      ReadStops(f, n, i, killed);
      return got, Done;
    }

    /** pipeclose */
    method Pipeclose(writable: bool)
      requires Valid()
      modifies this`readopen, this`writeopen
      ensures Valid() && Abs() == if writable then old(Abs()).(writeopen := false) else old(Abs()).(readopen := false)
    {
      if writable { writeopen := false; } else { readopen := false; }
    }
  }
}
