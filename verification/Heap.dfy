/** The user-level allocator of umalloc.c: one circular, address-ordered list of free blocks that starts at the static
    header `base`. Addresses are byte addresses, 0 is the null pointer, and a block of n units at address a covers
    [a, a + 8n), its header included. */
module Heap {
  import opened Words

  const HDR := 8
  const INT_LIMIT := 0x8000_0000
  const MIN_CORE := 4096

  /** A block that malloc has handed out. */
  datatype Block = Block(addr: nat, units: nat)

  predicate Apart(a: nat, n: nat, b: nat, m: nat) {
    a + HDR * n <= b || b + HDR * m <= a
  }

  /** Node i of the free list is linked to the next one, which lies behind it with a gap in between. */
  ghost predicate NodeOk(base: nat, lo: nat, brk: nat, ptr: map<nat, nat>, size: map<nat, nat>, list: seq<nat>, i: nat)
    requires i < |list|
  {
    var a := list[i];
    && a in ptr && a in size
    && ptr[a] == (if i + 1 < |list| then list[i + 1] else base)
    && (if i == 0 then a == base && size[a] == 0 else lo <= a && size[a] >= 1)
    && a + HDR * size[a] <= brk
    && (i + 1 < |list| ==> a + HDR * size[a] < list[i + 1])
  }

  /** list is the free list in address order, linked by ptr into a circle; its blocks do not touch each other. */
  ghost predicate ListOk(base: nat, lo: nat, brk: nat, ptr: map<nat, nat>, size: map<nat, nat>, list: seq<nat>) {
    && |list| >= 1 && 0 < base && base + HDR <= lo <= brk
    && forall i | 0 <= i < |list| :: NodeOk(base, lo, brk, ptr, size, list, i)
  }

  ghost predicate LiveOk(lo: nat, brk: nat, size: map<nat, nat>, live: seq<Block>) {
    && (forall k | 0 <= k < |live| ::
          && lo <= live[k].addr && live[k].units >= 1 && live[k].addr + HDR * live[k].units <= brk
          && live[k].addr in size && size[live[k].addr] == live[k].units)
    && (forall k, l | 0 <= k < l < |live| :: Apart(live[k].addr, live[k].units, live[l].addr, live[l].units))
  }

  ghost predicate FreeLiveApart(size: map<nat, nat>, list: seq<nat>, live: seq<Block>)
    requires forall i | 0 <= i < |list| :: list[i] in size
  {
    forall i, k | 1 <= i < |list| && 0 <= k < |live| :: Apart(list[i], size[list[i]], live[k].addr, live[k].units)
  }

  function FreeUnits(size: map<nat, nat>, list: seq<nat>): (n: nat)
    requires forall i | 0 <= i < |list| :: list[i] in size
  {
    if list == [] then 0 else FreeUnits(size, list[..|list| - 1]) + size[list[|list| - 1]]
  }

  function LiveUnits(live: seq<Block>): (n: nat) {
    if live == [] then 0 else LiveUnits(live[..|live| - 1]) + live[|live| - 1].units
  }

  // ---------- sums ----------

  lemma {:induction false} FreeUnitsSame(size: map<nat, nat>, size': map<nat, nat>, list: seq<nat>)
    requires forall i | 0 <= i < |list| :: list[i] in size && list[i] in size' && size'[list[i]] == size[list[i]]
    ensures FreeUnits(size', list) == FreeUnits(size, list)
    decreases |list|
  {
    if list == [] {
    } else {
      FreeUnitsSame(size, size', list[..|list| - 1]);
    }
  }

  lemma {:induction false} FreeUnitsConcat(size: map<nat, nat>, a: seq<nat>, b: seq<nat>)
    requires forall i | 0 <= i < |a| :: a[i] in size
    requires forall i | 0 <= i < |b| :: b[i] in size
    ensures FreeUnits(size, a + b) == FreeUnits(size, a) + FreeUnits(size, b)
    decreases |b|
  {
    if b == [] {
      assert a + b == a;
    } else {
      FreeUnitsConcat(size, a, b[..|b| - 1]);
      assert (a + b)[..|a + b| - 1] == a + b[..|b| - 1];
    }
  }

  lemma {:induction false} LiveUnitsConcat(a: seq<Block>, b: seq<Block>)
    ensures LiveUnits(a + b) == LiveUnits(a) + LiveUnits(b)
    decreases |b|
  {
    if b == [] {
      assert a + b == a;
    } else {
      LiveUnitsConcat(a, b[..|b| - 1]);
      assert (a + b)[..|a + b| - 1] == a + b[..|b| - 1];
    }
  }

  /** Changing the size of one listed block changes the sum by as much. */
  lemma FreeUnitsResize(size: map<nat, nat>, list: seq<nat>, i: nat, n: nat)
    requires i < |list| && (forall k | 0 <= k < |list| :: list[k] in size)
    requires forall j, k | 0 <= j < k < |list| :: list[j] != list[k]
    ensures FreeUnits(size[list[i] := n], list) == FreeUnits(size, list) - size[list[i]] + n
  {
    var a, x, b := list[..i], list[i], list[i + 1..];
    var size' := size[x := n];
    assert list == a + [x] + b;
    FreeUnitsConcat(size, a + [x], b);
    FreeUnitsConcat(size, a, [x]);
    FreeUnitsConcat(size', a + [x], b);
    FreeUnitsConcat(size', a, [x]);
    FreeUnitsSame(size, size', a);
    FreeUnitsSame(size, size', b);
    assert FreeUnits(size, [x]) == size[x] && FreeUnits(size', [x]) == n;
  }

  lemma {:induction false} LiveUnitsRemove(live: seq<Block>, k: nat)
    requires k < |live|
    ensures LiveUnits(live) == LiveUnits(live[..k] + live[k + 1..]) + live[k].units
    decreases |live|
  {
    var rest, front := live[..k] + live[k + 1..], live[..|live| - 1];
    if k == |live| - 1 {
      assert rest == front;
    } else {
      LiveUnitsRemove(front, k);
      assert rest[..|rest| - 1] == front[..k] + front[k + 1..];
    }
  }

  // ---------- free ----------

  /** The place of a block in the list: it comes after list[j] and before list[j + 1]. */
  ghost predicate Between(list: seq<nat>, j: nat, bp: nat) {
    j < |list| && list[j] < bp && (j + 1 < |list| ==> bp < list[j + 1])
  }

  ghost predicate Insertable(base: nat, lo: nat, brk: nat, ptr: map<nat, nat>, size: map<nat, nat>, list: seq<nat>,
                             bp: nat, j: nat)
  {
    && ListOk(base, lo, brk, ptr, size, list) && Between(list, j, bp)
    && lo <= bp && bp in size && size[bp] >= 1 && bp + HDR * size[bp] <= brk
    && forall i | 1 <= i < |list| :: list[i] in size && Apart(list[i], size[list[i]], bp, size[bp])
  }

  lemma {:induction false} Ordered(base: nat, lo: nat, brk: nat, ptr: map<nat, nat>, size: map<nat, nat>,
                                   list: seq<nat>, i: nat, k: nat)
    requires ListOk(base, lo, brk, ptr, size, list) && i < k < |list|
    ensures list[i] in size && list[i] + HDR * size[list[i]] < list[k]
    decreases k
  {
    assert NodeOk(base, lo, brk, ptr, size, list, i) && NodeOk(base, lo, brk, ptr, size, list, k - 1);
    if i + 1 == k {
    } else {
      Ordered(base, lo, brk, ptr, size, list, i, k - 1);
    }
  }

  /** Nothing lies between the neighbours and the block, and all other blocks are further away. */
  lemma Neighbours(base: nat, lo: nat, brk: nat, ptr: map<nat, nat>, size: map<nat, nat>, list: seq<nat>, bp: nat,
                   j: nat)
    requires Insertable(base, lo, brk, ptr, size, list, bp, j)
    ensures forall i | 0 <= i < |list| :: list[i] in size && list[i] in ptr
    ensures list[j] + HDR * size[list[j]] <= bp && (j + 1 < |list| ==> bp + HDR * size[bp] <= list[j + 1])
    ensures forall i | 0 <= i < j :: list[i] < list[j]
    ensures forall i | j < i < |list| :: bp < list[i]
    ensures forall i | j + 1 < i < |list| :: list[j + 1] < list[i]
  {
    assert NodeOk(base, lo, brk, ptr, size, list, j);
    forall i | 0 <= i < |list| ensures list[i] in size && list[i] in ptr {
      assert NodeOk(base, lo, brk, ptr, size, list, i);
    }
    assert j + 1 < |list| ==> Apart(list[j + 1], size[list[j + 1]], bp, size[bp]);
    assert j >= 1 ==> Apart(list[j], size[list[j]], bp, size[bp]);
    forall i | 0 <= i < j ensures list[i] < list[j] {
      Ordered(base, lo, brk, ptr, size, list, i, j);
    }
    forall i | j + 1 < i < |list| ensures list[j + 1] < list[i] {
      Ordered(base, lo, brk, ptr, size, list, j + 1, i);
    }
  }

  /** bp + bp->s.size == p->s.ptr */
  predicate TouchesNext(size: map<nat, nat>, list: seq<nat>, j: nat, bp: nat)
    requires bp in size
  {
    j + 1 < |list| && bp + HDR * size[bp] == list[j + 1]
  }

  /** What follows bp in the list once it has taken over its right neighbour, if they touch. */
  function Rest(size: map<nat, nat>, list: seq<nat>, j: nat, bp: nat): (r: seq<nat>)
    requires bp in size && j < |list|
  {
    if TouchesNext(size, list, j, bp) then list[j + 2..] else list[j + 1..]
  }

  function MergedSize(size: map<nat, nat>, list: seq<nat>, j: nat, bp: nat): (r: map<nat, nat>)
    requires bp in size && j < |list| && (j + 1 < |list| ==> list[j + 1] in size)
  {
    if TouchesNext(size, list, j, bp) then size[bp := size[bp] + size[list[j + 1]]] else size
  }

  function FirstOr(s: seq<nat>, base: nat): (x: nat) {
    if s == [] then base else s[0]
  }

  /** free without a merge to the left: p->s.ptr = bp. */
  lemma InsertedOk(base: nat, lo: nat, brk: nat, ptr: map<nat, nat>, size: map<nat, nat>, list: seq<nat>, bp: nat,
                   j: nat, ptr': map<nat, nat>, list': seq<nat>)
    requires Insertable(base, lo, brk, ptr, size, list, bp, j) && list[j] in size && list[j] + HDR * size[list[j]] != bp
    requires ptr' == ptr[bp := FirstOr(Rest(size, list, j, bp), base)][list[j] := bp]
    requires list' == list[..j + 1] + [bp] + Rest(size, list, j, bp) && (j + 1 < |list| ==> list[j + 1] in size)
    ensures ListOk(base, lo, brk, ptr', MergedSize(size, list, j, bp), list')
  {
    Neighbours(base, lo, brk, ptr, size, list, bp, j);
    var size', d := MergedSize(size, list, j, bp), if TouchesNext(size, list, j, bp) then 0 else 1;
    forall i | 0 <= i < |list'| ensures NodeOk(base, lo, brk, ptr', size', list', i) {
      if i <= j {
        assert NodeOk(base, lo, brk, ptr, size, list, i);
      } else if i == j + 1 {
        assert j + 1 < |list| ==> NodeOk(base, lo, brk, ptr, size, list, j + 1);
      } else {
        assert list'[i] == list[i - d] && NodeOk(base, lo, brk, ptr, size, list, i - d);
      }
    }
  }

  lemma Distinct(base: nat, lo: nat, brk: nat, ptr: map<nat, nat>, size: map<nat, nat>, list: seq<nat>)
    requires ListOk(base, lo, brk, ptr, size, list)
    ensures forall i | 0 <= i < |list| :: list[i] in size && list[i] in ptr
    ensures forall i, k | 0 <= i < k < |list| :: list[i] != list[k]
  {
    forall i | 0 <= i < |list| ensures list[i] in size && list[i] in ptr {
      assert NodeOk(base, lo, brk, ptr, size, list, i);
    }
    forall i, k | 0 <= i < k < |list| ensures list[i] != list[k] {
      Ordered(base, lo, brk, ptr, size, list, i, k);
    }
  }

  /** free with a merge to the left: p takes over bp. */
  lemma MergedOk(base: nat, lo: nat, brk: nat, ptr: map<nat, nat>, size: map<nat, nat>, list: seq<nat>, bp: nat, j: nat,
                 ptr': map<nat, nat>, size': map<nat, nat>, list': seq<nat>)
    requires Insertable(base, lo, brk, ptr, size, list, bp, j) && list[j] in size && list[j] + HDR * size[list[j]] == bp
    requires j + 1 < |list| ==> list[j + 1] in size
    requires var next := FirstOr(Rest(size, list, j, bp), base); ptr' == ptr[bp := next][list[j] := next]
    requires size' == MergedSize(size, list, j, bp)[list[j] := size[list[j]] + MergedSize(size, list, j, bp)[bp]]
    requires list' == list[..j + 1] + Rest(size, list, j, bp)
    ensures ListOk(base, lo, brk, ptr', size', list')
  {
    Neighbours(base, lo, brk, ptr, size, list, bp, j);
    var d := if TouchesNext(size, list, j, bp) then 1 else 0;
    forall i | 0 <= i < |list'| ensures NodeOk(base, lo, brk, ptr', size', list', i) {
      if i <= j {
        assert NodeOk(base, lo, brk, ptr, size, list, i);
        assert j + 1 < |list| ==> NodeOk(base, lo, brk, ptr, size, list, j + 1);
      } else {
        assert list'[i] == list[i + d] && NodeOk(base, lo, brk, ptr, size, list, i + d);
      }
    }
  }

  ghost predicate AllIn(size: map<nat, nat>, s: seq<nat>) {
    forall i | 0 <= i < |s| :: s[i] in size
  }

  ghost predicate Absent(x: nat, s: seq<nat>) {
    forall i | 0 <= i < |s| :: s[i] != x
  }

  /** A node of the list gives its place to bp, which takes over its units. */
  lemma GainTouching(size: map<nat, nat>, left: seq<nat>, next: nat, rest: seq<nat>, bp: nat)
    requires AllIn(size, left) && AllIn(size, rest) && next in size && bp in size && Absent(bp, left)
    requires Absent(bp, rest)
    ensures FreeUnits(size[bp := size[bp] + size[next]], left + [bp] + rest)
            == FreeUnits(size, left + [next] + rest) + size[bp]
  {
    var size' := size[bp := size[bp] + size[next]];
    FreeUnitsConcat(size', left + [bp], rest);
    FreeUnitsConcat(size', left, [bp]);
    FreeUnitsConcat(size, left + [next], rest);
    FreeUnitsConcat(size, left, [next]);
    FreeUnitsSame(size, size', left);
    FreeUnitsSame(size, size', rest);
    assert FreeUnits(size', [bp]) == size'[bp] && FreeUnits(size, [next]) == size[next];
  }

  lemma GainPlain(size: map<nat, nat>, left: seq<nat>, rest: seq<nat>, bp: nat)
    requires AllIn(size, left) && AllIn(size, rest) && bp in size
    ensures FreeUnits(size, left + [bp] + rest) == FreeUnits(size, left + rest) + size[bp]
  {
    FreeUnitsConcat(size, left + [bp], rest);
    FreeUnitsConcat(size, left, [bp]);
    FreeUnitsConcat(size, left, rest);
    assert FreeUnits(size, [bp]) == size[bp];
  }

  /** p takes over the node behind it. */
  lemma GainMerging(size: map<nat, nat>, left: seq<nat>, p: nat, bp: nat, rest: seq<nat>)
    requires AllIn(size, left) && AllIn(size, rest) && p in size && bp in size && Absent(p, left) && Absent(p, rest)
    ensures FreeUnits(size[p := size[p] + size[bp]], left + [p] + rest) == FreeUnits(size, (left + [p]) + [bp] + rest)
  {
    GainPlain(size, left + [p], rest, bp);
    var size' := size[p := size[p] + size[bp]];
    FreeUnitsConcat(size', left + [p], rest);
    FreeUnitsConcat(size', left, [p]);
    FreeUnitsConcat(size, left + [p], rest);
    FreeUnitsConcat(size, left, [p]);
    FreeUnitsSame(size, size', left);
    FreeUnitsSame(size, size', rest);
    assert FreeUnits(size', [p]) == size'[p] && FreeUnits(size, [p]) == size[p];
  }

  /** The list falls into the nodes before the place for bp, the one taken over, and the rest. */
  lemma SplitList(size: map<nat, nat>, list: seq<nat>, j: nat, bp: nat)
    requires bp in size && j < |list|
    ensures var left, rest := list[..j + 1], Rest(size, list, j, bp);
            list == if TouchesNext(size, list, j, bp) then left + [list[j + 1]] + rest else left + rest
  {}

  /** The nodes on both sides of the place for bp. */
  lemma FreeParts(base: nat, lo: nat, brk: nat, ptr: map<nat, nat>, size: map<nat, nat>, list: seq<nat>, bp: nat,
                  j: nat)
    requires Insertable(base, lo, brk, ptr, size, list, bp, j)
    ensures var left, rest := list[..j + 1], Rest(size, list, j, bp);
            AllIn(size, list) && Absent(bp, left) && Absent(bp, rest) && AllIn(size, left) && AllIn(size, rest)
  {
    Neighbours(base, lo, brk, ptr, size, list, bp, j);
    var rest := Rest(size, list, j, bp);
    forall i | 0 <= i < |rest| ensures rest[i] in size && bp < rest[i] {
      assert rest[i] == list[|list| - |rest| + i];
    }
  }

  /** With or without a merge to the right, the list gains the units of bp. */
  lemma FreeGains(base: nat, lo: nat, brk: nat, ptr: map<nat, nat>, size: map<nat, nat>, list: seq<nat>, bp: nat,
                  j: nat)
    requires Insertable(base, lo, brk, ptr, size, list, bp, j)
    ensures AllIn(size, list)
    ensures var size1, list1 := MergedSize(size, list, j, bp), list[..j + 1] + [bp] + Rest(size, list, j, bp);
            AllIn(size1, list1) && FreeUnits(size1, list1) == FreeUnits(size, list) + size[bp]
  {
    FreeParts(base, lo, brk, ptr, size, list, bp, j);
    SplitList(size, list, j, bp);
    var left, rest := list[..j + 1], Rest(size, list, j, bp);
    if TouchesNext(size, list, j, bp) {
      GainTouching(size, left, list[j + 1], rest, bp);
    } else {
      GainPlain(size, left, rest, bp);
    }
  }

  /** The other nodes, when p takes over bp. */
  lemma MergeParts(base: nat, lo: nat, brk: nat, ptr: map<nat, nat>, size: map<nat, nat>, list: seq<nat>, bp: nat,
                   j: nat)
    requires Insertable(base, lo, brk, ptr, size, list, bp, j)
    ensures AllIn(size, list)
    ensures var size1, rest := MergedSize(size, list, j, bp), Rest(size, list, j, bp);
            && AllIn(size1, list[..j]) && AllIn(size1, rest) && list[j] in size1 && size1[list[j]] == size[list[j]]
            && Absent(list[j], list[..j]) && Absent(list[j], rest)
  {
    Neighbours(base, lo, brk, ptr, size, list, bp, j);
  }

  /** And so does the list in which p has taken over bp. */
  lemma MergeGains(base: nat, lo: nat, brk: nat, ptr: map<nat, nat>, size: map<nat, nat>, list: seq<nat>, bp: nat,
                   j: nat)
    requires Insertable(base, lo, brk, ptr, size, list, bp, j)
    ensures AllIn(size, list)
    ensures var size1 := MergedSize(size, list, j, bp);
            var size2, list2 := size1[list[j] := size[list[j]] + size1[bp]], list[..j + 1] + Rest(size, list, j, bp);
            AllIn(size2, list2) && FreeUnits(size2, list2) == FreeUnits(size, list) + size[bp]
  {
    MergeParts(base, lo, brk, ptr, size, list, bp, j);
    FreeGains(base, lo, brk, ptr, size, list, bp, j);
    assert list[..j + 1] == list[..j] + [list[j]];
    GainMerging(MergedSize(size, list, j, bp), list[..j], list[j], bp, Rest(size, list, j, bp));
  }

  /** Every address behind the base that is not in the list has its place there. */
  lemma {:induction false} Place(list: seq<nat>, bp: nat, n: nat) returns (j: nat)
    requires 1 <= n <= |list| && list[0] < bp && (n < |list| ==> bp < list[n]) && Absent(bp, list)
    ensures Between(list, j, bp)
    decreases n
  {
    if list[n - 1] < bp {
      j := n - 1;
    } else {
      j := Place(list, bp, n - 1);
    }
  }

  // ---------- the whole heap ----------

  ghost predicate HeapOk(base: nat, lo: nat, brk: nat, ptr: map<nat, nat>, size: map<nat, nat>, list: seq<nat>,
                         live: seq<Block>, obtained: nat)
  {
    && ListOk(base, lo, brk, ptr, size, list) && AllIn(size, list)
    && LiveOk(lo, brk, size, live) && FreeLiveApart(size, list, live)
    && FreeUnits(size, list) + LiveUnits(live) == obtained
  }

  function Drop(live: seq<Block>, k: nat): (r: seq<Block>)
    requires k < |live|
  {
    live[..k] + live[k + 1..]
  }

  /** A live block that is apart from two touching blocks is apart from their union. */
  lemma ApartJoin(a: nat, n: nat, m: nat, b: nat, u: nat)
    requires Apart(a, n, b, u) && Apart(a + HDR * n, m, b, u) && u >= 1
    ensures Apart(a, n + m, b, u)
  {}

  /** A live block can be put into the free list. */
  lemma LiveInsertable(base: nat, lo: nat, brk: nat, ptr: map<nat, nat>, size: map<nat, nat>, list: seq<nat>,
                       live: seq<Block>, obtained: nat, k: nat)
    requires HeapOk(base, lo, brk, ptr, size, list, live, obtained) && k < |live|
    ensures Absent(live[k].addr, list) && list[0] == base < live[k].addr
    ensures forall j | 0 <= j < |list| && Between(list, j, live[k].addr) ::
              Insertable(base, lo, brk, ptr, size, list, live[k].addr, j)
  {
    assert NodeOk(base, lo, brk, ptr, size, list, 0);
    forall i | 0 <= i < |list| ensures list[i] != live[k].addr {
      assert NodeOk(base, lo, brk, ptr, size, list, i);
      assert i >= 1 ==> Apart(list[i], size[list[i]], live[k].addr, live[k].units);
    }
    forall j | 0 <= j < |list| && Between(list, j, live[k].addr)
      ensures Insertable(base, lo, brk, ptr, size, list, live[k].addr, j)
    {
      forall i | 1 <= i < |list| ensures Apart(list[i], size[list[i]], live[k].addr, live[k].units) {}
    }
  }

  /** The other live blocks keep clear of the freed one and of what it was merged with. */
  lemma InsertApart(base: nat, lo: nat, brk: nat, ptr: map<nat, nat>, size: map<nat, nat>, list: seq<nat>,
                    live: seq<Block>, obtained: nat, k: nat, j: nat)
    requires HeapOk(base, lo, brk, ptr, size, list, live, obtained) && k < |live|
    requires Insertable(base, lo, brk, ptr, size, list, live[k].addr, j)
    ensures var bp := live[k].addr;
            var size1, list1 := MergedSize(size, list, j, bp), list[..j + 1] + [bp] + Rest(size, list, j, bp);
            AllIn(size1, list1) && LiveOk(lo, brk, size1, Drop(live, k)) && FreeLiveApart(size1, list1, Drop(live, k))
  {
    var bp, live' := live[k].addr, Drop(live, k);
    Neighbours(base, lo, brk, ptr, size, list, bp, j);
    var size1, rest := MergedSize(size, list, j, bp), Rest(size, list, j, bp);
    var list1, t := list[..j + 1] + [bp] + rest, TouchesNext(size, list, j, bp);
    forall m | 0 <= m < |live'| ensures live'[m] == live[if m < k then m else m + 1] {}
    assert LiveOk(lo, brk, size1, live');
    forall i, m | 1 <= i < |list1| && 0 <= m < |live'|
      ensures Apart(list1[i], size1[list1[i]], live'[m].addr, live'[m].units)
    {
      var l := if m < k then m else m + 1;
      assert Apart(bp, size[bp], live[l].addr, live[l].units);
      if i == j + 1 {
        if t {
          assert Apart(list[j + 1], size[list[j + 1]], live[l].addr, live[l].units);
          ApartJoin(bp, size[bp], size[list[j + 1]], live[l].addr, live[l].units);
        }
      } else {
        var o := if i <= j then i else if t then i else i - 1;
        assert list1[i] == list[o] && Apart(list[o], size[list[o]], live[l].addr, live[l].units);
      }
    }
  }

  /** The left neighbour is at the address of no live block. */
  lemma LeftNotLive(base: nat, lo: nat, brk: nat, ptr: map<nat, nat>, size: map<nat, nat>, list: seq<nat>,
                    live: seq<Block>, obtained: nat, k: nat, j: nat, m: nat)
    requires HeapOk(base, lo, brk, ptr, size, list, live, obtained) && k < |live| && j < |list| && m < |Drop(live, k)|
    ensures Drop(live, k)[m].addr != list[j]
  {
    assert Drop(live, k)[m] == live[if m < k then m else m + 1];
    assert NodeOk(base, lo, brk, ptr, size, list, j);
  }

  lemma MergeApart(base: nat, lo: nat, brk: nat, ptr: map<nat, nat>, size: map<nat, nat>, list: seq<nat>,
                   live: seq<Block>, obtained: nat, k: nat, j: nat)
    requires HeapOk(base, lo, brk, ptr, size, list, live, obtained) && k < |live|
    requires Insertable(base, lo, brk, ptr, size, list, live[k].addr, j)
    requires list[j] + HDR * size[list[j]] == live[k].addr
    ensures var bp := live[k].addr;
            var size1 := MergedSize(size, list, j, bp);
            var size2, list2 := size1[list[j] := size[list[j]] + size1[bp]], list[..j + 1] + Rest(size, list, j, bp);
            AllIn(size2, list2) && LiveOk(lo, brk, size2, Drop(live, k)) && FreeLiveApart(size2, list2, Drop(live, k))
  {
    var bp, live' := live[k].addr, Drop(live, k);
    Neighbours(base, lo, brk, ptr, size, list, bp, j);
    InsertApart(base, lo, brk, ptr, size, list, live, obtained, k, j);
    var size1, rest := MergedSize(size, list, j, bp), Rest(size, list, j, bp);
    var list1, list2 := list[..j + 1] + [bp] + rest, list[..j + 1] + rest;
    var size2 := size1[list[j] := size[list[j]] + size1[bp]];
    assert NodeOk(base, lo, brk, ptr, size, list, j);
    forall m | 0 <= m < |live'| ensures live'[m].addr != list[j] {
      LeftNotLive(base, lo, brk, ptr, size, list, live, obtained, k, j, m);
    }
    forall i, m | 1 <= i < |list2| && 0 <= m < |live'|
      ensures Apart(list2[i], size2[list2[i]], live'[m].addr, live'[m].units)
    {
      if i == j {
        assert Apart(list1[j], size1[list1[j]], live'[m].addr, live'[m].units);
        assert Apart(list1[j + 1], size1[list1[j + 1]], live'[m].addr, live'[m].units);
        ApartJoin(list[j], size[list[j]], size1[bp], live'[m].addr, live'[m].units);
      } else {
        var o := if i < j then i else i + 1;
        assert list1[o] == list2[i] && Apart(list1[o], size1[list1[o]], live'[m].addr, live'[m].units);
      }
    }
  }

  /** free as a whole, without a merge to the left. */
  lemma InsertedHeap(base: nat, lo: nat, brk: nat, ptr: map<nat, nat>, size: map<nat, nat>, list: seq<nat>,
                     live: seq<Block>, obtained: nat, k: nat, j: nat, ptr': map<nat, nat>, list': seq<nat>)
    requires HeapOk(base, lo, brk, ptr, size, list, live, obtained) && k < |live|
    requires Insertable(base, lo, brk, ptr, size, list, live[k].addr, j)
    requires list[j] + HDR * size[list[j]] != live[k].addr
    requires ptr' == ptr[live[k].addr := FirstOr(Rest(size, list, j, live[k].addr), base)][list[j] := live[k].addr]
    requires list' == list[..j + 1] + [live[k].addr] + Rest(size, list, j, live[k].addr)
    ensures HeapOk(base, lo, brk, ptr', MergedSize(size, list, j, live[k].addr), list', Drop(live, k), obtained)
  {
    InsertedOk(base, lo, brk, ptr, size, list, live[k].addr, j, ptr', list');
    InsertApart(base, lo, brk, ptr, size, list, live, obtained, k, j);
    FreeGains(base, lo, brk, ptr, size, list, live[k].addr, j);
    LiveUnitsRemove(live, k);
  }

  /** free as a whole, with a merge to the left. */
  lemma MergedHeap(base: nat, lo: nat, brk: nat, ptr: map<nat, nat>, size: map<nat, nat>, list: seq<nat>,
                   live: seq<Block>, obtained: nat, k: nat, j: nat,
                   ptr': map<nat, nat>, size': map<nat, nat>, list': seq<nat>)
    requires HeapOk(base, lo, brk, ptr, size, list, live, obtained) && k < |live|
    requires Insertable(base, lo, brk, ptr, size, list, live[k].addr, j)
    requires list[j] + HDR * size[list[j]] == live[k].addr
    requires var bp := live[k].addr;
             var size1, first := MergedSize(size, list, j, bp), FirstOr(Rest(size, list, j, bp), base);
             ptr' == ptr[bp := first][list[j] := first] && size' == size1[list[j] := size[list[j]] + size1[bp]]
    requires list' == list[..j + 1] + Rest(size, list, j, live[k].addr)
    ensures HeapOk(base, lo, brk, ptr', size', list', Drop(live, k), obtained)
  {
    MergedOk(base, lo, brk, ptr, size, list, live[k].addr, j, ptr', size', list');
    MergeApart(base, lo, brk, ptr, size, list, live, obtained, k, j);
    MergeGains(base, lo, brk, ptr, size, list, live[k].addr, j);
    LiveUnitsRemove(live, k);
  }

  lemma DropLast(live: seq<Block>, b: Block)
    ensures Drop(live + [b], |live|) == live && (live + [b])[|live|] == b
  {}

  lemma HoldsSize(size: map<nat, nat>, list: seq<nat>, g: nat, a: nat, n: nat)
    requires Holds(size, list, g, a, n)
    ensures size[list[g]] >= n
  {}

  /** A higher break changes nothing. */
  lemma MoreRoom(base: nat, lo: nat, brk: nat, brk': nat, ptr: map<nat, nat>, size: map<nat, nat>, list: seq<nat>,
                 live: seq<Block>, obtained: nat)
    requires HeapOk(base, lo, brk, ptr, size, list, live, obtained) && brk <= brk'
    ensures HeapOk(base, lo, brk', ptr, size, list, live, obtained)
  {
    forall i | 0 <= i < |list| ensures NodeOk(base, lo, brk', ptr, size, list, i) {
      assert NodeOk(base, lo, brk, ptr, size, list, i);
    }
  }

  /** New core starts its life as an allocated block. */
  lemma NewCore(base: nat, lo: nat, p: nat, brk: nat, ptr: map<nat, nat>, size: map<nat, nat>, list: seq<nat>,
                live: seq<Block>, obtained: nat, n: nat)
    requires HeapOk(base, lo, p, ptr, size, list, live, obtained) && n > 0 && brk == p + HDR * n
    ensures HeapOk(base, lo, brk, ptr, size[p := n], list, live + [Block(p, n)], obtained + n)
  {
    MoreRoom(base, lo, p, brk, ptr, size, list, live, obtained);
    var size', live' := size[p := n], live + [Block(p, n)];
    forall i | 0 <= i < |list|
      ensures list[i] != p && list[i] + HDR * size[list[i]] <= p && NodeOk(base, lo, brk, ptr, size', list, i)
    {
      assert NodeOk(base, lo, p, ptr, size, list, i);
    }
    FreeUnitsSame(size, size', list);
    LiveUnitsConcat(live, [Block(p, n)]);
    assert LiveUnits([Block(p, n)]) == n;
  }

  /** The freed block is part of one free block. */
  ghost predicate Holds(size: map<nat, nat>, list: seq<nat>, g: nat, a: nat, n: nat) {
    g < |list| && list[g] in size && list[g] <= a && a + HDR * n <= list[g] + HDR * size[list[g]]
  }

  // ---------- malloc ----------

  /** nunits, in 32-bit arithmetic. */
  function UnitsFor(nbytes: nat): (n: nat)
    requires nbytes < WORD_LIMIT
  {
    (nbytes + HDR - 1) % WORD_LIMIT / HDR + 1
  }

  /** The units that morecore asks for. */
  function Core(nu: nat): (n: nat)
    ensures n >= nu && n >= 4096 && (n == nu || n == 4096)
  {
    if nu < MIN_CORE then MIN_CORE else nu
  }

  /** A block of that many units has room for the request exactly if the rounding does not wrap around, and no smaller
      block has. */
  lemma UnitsEnough(nbytes: nat)
    requires nbytes < WORD_LIMIT
    ensures HDR * (UnitsFor(nbytes) - 1) >= nbytes <==> nbytes <= WORD_LIMIT - HDR
    ensures nbytes > 0 ==> HDR * (UnitsFor(nbytes) - 2) < nbytes
  {}

  /** The sizes for which sbrk, whose argument is an int, is asked for a positive number of bytes. */
  lemma SbrkFits(nbytes: nat)
    requires nbytes < WORD_LIMIT
    ensures HDR * UnitsFor(nbytes) < INT_LIMIT <==> nbytes <= INT_LIMIT - 2 * HDR || nbytes > WORD_LIMIT - HDR
  {}

  /** malloc of the largest sizes returns a block with no room at all. */
  lemma UnitsWrap()
    ensures UnitsFor(WORD_LIMIT - 1) == 1
  {}

  lemma TakeWholeList(base: nat, lo: nat, brk: nat, ptr: map<nat, nat>, size: map<nat, nat>, list: seq<nat>,
                      i: nat, ptr': map<nat, nat>, list': seq<nat>)
    requires ListOk(base, lo, brk, ptr, size, list) && 1 <= i < |list|
    requires list[i] in ptr && ptr' == ptr[list[i - 1] := ptr[list[i]]] && list' == list[..i] + list[i + 1..]
    ensures ListOk(base, lo, brk, ptr', size, list')
  {
    assert NodeOk(base, lo, brk, ptr, size, list, i) && NodeOk(base, lo, brk, ptr, size, list, i - 1);
    Distinct(base, lo, brk, ptr, size, list);
    forall m | 0 <= m < |list'| ensures NodeOk(base, lo, brk, ptr', size, list', m) {
      assert NodeOk(base, lo, brk, ptr, size, list, if m < i then m else m + 1);
      assert i + 1 < |list| ==> NodeOk(base, lo, brk, ptr, size, list, i + 1);
    }
  }

  lemma TakeWholeApart(base: nat, lo: nat, brk: nat, ptr: map<nat, nat>, size: map<nat, nat>, list: seq<nat>,
                       live: seq<Block>, obtained: nat, i: nat, list': seq<nat>, live': seq<Block>)
    requires HeapOk(base, lo, brk, ptr, size, list, live, obtained) && 1 <= i < |list|
    requires list' == list[..i] + list[i + 1..] && live' == live + [Block(list[i], size[list[i]])]
    ensures AllIn(size, list') && LiveOk(lo, brk, size, live') && FreeLiveApart(size, list', live')
  {
    var p := list[i];
    assert NodeOk(base, lo, brk, ptr, size, list, i);
    forall k | 0 <= k < |live| ensures Apart(live[k].addr, live[k].units, p, size[p]) {
      assert Apart(p, size[p], live[k].addr, live[k].units);
    }
    forall m, k | 1 <= m < |list'| && 0 <= k < |live'|
      ensures Apart(list'[m], size[list'[m]], live'[k].addr, live'[k].units)
    {
      var o := if m < i then m else m + 1;
      assert list'[m] == list[o];
      if k == |live| {
        if o < i {
          Ordered(base, lo, brk, ptr, size, list, o, i);
        } else {
          Ordered(base, lo, brk, ptr, size, list, i, o);
        }
      } else {
        assert Apart(list[o], size[list[o]], live[k].addr, live[k].units);
      }
    }
  }

  /** The exact fit: the node before points past the block. */
  lemma TakeWhole(base: nat, lo: nat, brk: nat, ptr: map<nat, nat>, size: map<nat, nat>, list: seq<nat>,
                  live: seq<Block>, obtained: nat, i: nat, ptr': map<nat, nat>, list': seq<nat>, live': seq<Block>)
    requires HeapOk(base, lo, brk, ptr, size, list, live, obtained) && 1 <= i < |list|
    requires list[i] in ptr && ptr' == ptr[list[i - 1] := ptr[list[i]]] && list' == list[..i] + list[i + 1..]
    requires live' == live + [Block(list[i], size[list[i]])]
    ensures HeapOk(base, lo, brk, ptr', size, list', live', obtained)
  {
    TakeWholeList(base, lo, brk, ptr, size, list, i, ptr', list');
    TakeWholeApart(base, lo, brk, ptr, size, list, live, obtained, i, list', live');
    UnitsMove(size, list, live, i);
  }

  lemma UnitsMove(size: map<nat, nat>, list: seq<nat>, live: seq<Block>, i: nat)
    requires AllIn(size, list) && i < |list|
    ensures AllIn(size, list[..i] + list[i + 1..])
    ensures FreeUnits(size, list[..i] + list[i + 1..]) + LiveUnits(live + [Block(list[i], size[list[i]])])
            == FreeUnits(size, list) + LiveUnits(live)
  {
    var a, p, b := list[..i], list[i], list[i + 1..];
    GainPlain(size, a, b, p);
    assert list == a + [p] + b;
    LiveUnitsConcat(live, [Block(p, size[p])]);
    assert LiveUnits([Block(p, size[p])]) == size[p];
  }

  ghost predicate SplitAt(size: map<nat, nat>, size': map<nat, nat>, p: nat, n: nat, r: nat) {
    p in size && 1 <= n < size[p] && r == p + HDR * (size[p] - n) && size' == size[p := size[p] - n][r := n]
  }

  lemma TakeTailList(base: nat, lo: nat, brk: nat, ptr: map<nat, nat>, size: map<nat, nat>, list: seq<nat>,
                     i: nat, n: nat, r: nat, size': map<nat, nat>)
    requires ListOk(base, lo, brk, ptr, size, list) && 1 <= i < |list| && SplitAt(size, size', list[i], n, r)
    ensures ListOk(base, lo, brk, ptr, size', list) && AllIn(size, list) && AllIn(size', list)
    ensures Absent(r, list) && forall m | 1 <= m < |list| :: Apart(list[m], size'[list[m]], r, n)
    ensures forall m | 0 <= m < |list| :: size'[list[m]] == if m == i then size[list[i]] - n else size[list[m]]
  {
    assert NodeOk(base, lo, brk, ptr, size, list, i);
    Distinct(base, lo, brk, ptr, size, list);
    forall m | 0 <= m < |list|
      ensures list[m] != r && (m >= 1 ==> Apart(list[m], size'[list[m]], r, n))
      ensures NodeOk(base, lo, brk, ptr, size', list, m)
    {
      assert NodeOk(base, lo, brk, ptr, size, list, m);
      if m < i {
        Ordered(base, lo, brk, ptr, size, list, m, i);
      } else if i < m {
        Ordered(base, lo, brk, ptr, size, list, i, m);
      }
    }
  }

  lemma TakeTailApart(base: nat, lo: nat, brk: nat, ptr: map<nat, nat>, size: map<nat, nat>, list: seq<nat>,
                      live: seq<Block>, obtained: nat, i: nat, n: nat, r: nat, size': map<nat, nat>, live': seq<Block>)
    requires HeapOk(base, lo, brk, ptr, size, list, live, obtained) && 1 <= i < |list|
    requires SplitAt(size, size', list[i], n, r)
    requires live' == live + [Block(r, n)] && AllIn(size', list)
    requires forall m | 1 <= m < |list| :: Apart(list[m], size'[list[m]], r, n)
    requires forall m | 0 <= m < |list| :: size'[list[m]] == if m == i then size[list[i]] - n else size[list[m]]
    ensures LiveOk(lo, brk, size', live') && FreeLiveApart(size', list, live')
  {
    var p := list[i];
    assert NodeOk(base, lo, brk, ptr, size, list, i);
    forall k | 0 <= k < |live|
      ensures Apart(live[k].addr, live[k].units, r, n) && live[k].addr != p && live[k].addr != r {
      assert Apart(p, size[p], live[k].addr, live[k].units);
    }
    forall m, k | 1 <= m < |list| && 0 <= k < |live'|
      ensures Apart(list[m], size'[list[m]], live'[k].addr, live'[k].units)
    {
      assert k < |live| ==> Apart(list[m], size[list[m]], live[k].addr, live[k].units);
    }
  }

  /** The larger block: its tail is handed out. */
  lemma TakeTail(base: nat, lo: nat, brk: nat, ptr: map<nat, nat>, size: map<nat, nat>, list: seq<nat>,
                 live: seq<Block>, obtained: nat, i: nat, n: nat, r: nat, size': map<nat, nat>, live': seq<Block>)
    requires HeapOk(base, lo, brk, ptr, size, list, live, obtained) && 1 <= i < |list|
    requires SplitAt(size, size', list[i], n, r)
    requires live' == live + [Block(r, n)]
    ensures HeapOk(base, lo, brk, ptr, size', list, live', obtained)
  {
    TakeTailList(base, lo, brk, ptr, size, list, i, n, r, size');
    TakeTailApart(base, lo, brk, ptr, size, list, live, obtained, i, n, r, size', live');
    Distinct(base, lo, brk, ptr, size, list);
    FreeUnitsResize(size, list, i, size[list[i]] - n);
    FreeUnitsSame(size[list[i] := size[list[i]] - n], size', list);
    LiveUnitsConcat(live, [Block(r, n)]);
    assert LiveUnits([Block(r, n)]) == n;
  }

  /** How many steps round a list of n nodes lead from node `at` to node i; n if they are the same. */
  function Steps(at: nat, i: nat, n: nat): (d: nat)
    requires at < n && i < n
  {
    if i > at then i - at else i + n - at
  }

  function After(i: nat, n: nat): (k: nat)
    requires i < n
  {
    if i + 1 < n then i + 1 else 0
  }

  function Before(i: nat, n: nat): (k: nat)
    requires i < n
  {
    if i > 0 then i - 1 else n - 1
  }

  /** The blocks between at and i, going round, have less than n units. */
  ghost predicate SmallTo(size: map<nat, nat>, list: seq<nat>, n: nat, at: nat, i: nat)
    requires at < |list| && i < |list| && AllIn(size, list)
  {
    forall k | 0 <= k < |list| && Steps(at, k, |list|) < Steps(at, i, |list|) :: size[list[k]] < n
  }

  lemma SmallMore(size: map<nat, nat>, list: seq<nat>, n: nat, at: nat, i: nat)
    requires at < |list| && i < |list| && i != at && AllIn(size, list) && SmallTo(size, list, n, at, i)
    requires size[list[i]] < n
    ensures SmallTo(size, list, n, at, After(i, |list|))
    ensures Steps(at, After(i, |list|), |list|) == Steps(at, i, |list|) + 1
    ensures Before(After(i, |list|), |list|) == i
  {}

  lemma SmallAll(size: map<nat, nat>, list: seq<nat>, n: nat, at: nat)
    requires at < |list| && AllIn(size, list) && SmallTo(size, list, n, at, at) && size[list[at]] < n
    ensures !FitsIn(size, list, n)
  {
    forall k | 0 <= k < |list| ensures size[list[k]] < n {
      assert k != at ==> Steps(at, k, |list|) < Steps(at, at, |list|);
    }
  }

  /** Some block of the list has n units. */
  ghost predicate FitsIn(size: map<nat, nat>, list: seq<nat>, n: nat) {
    exists k :: 0 <= k < |list| && list[k] in size && size[list[k]] >= n
  }

  /** An allocator and the kernel below it. Whether sbrk grants a call may depend on all calls so far, so grants is the
      kernel's answer to each sequence of calls, the last one being the one that is answered. */
  class Allocator {
    const base: nat
    const lo: nat
    const grants: seq<nat> -> bool
    var calls: seq<nat>          // the calls of sbrk so far: how many bytes each asked for
    var ptr: map<nat, nat>
    var size: map<nat, nat>
    var freep: nat
    var brk: nat
    ghost var list: seq<nat>
    ghost var at: nat            // freep is list[at]
    ghost var live: seq<Block>
    ghost var obtained: nat      // units that morecore has got from sbrk

    ghost predicate Valid()
      reads this
    {
      if freep == 0 then
        0 < base && base + HDR <= lo <= brk && live == [] && obtained == 0
      else
        HeapOk(base, lo, brk, ptr, size, list, live, obtained) && at < |list| && freep == list[at]
    }

    constructor (base: nat, lo: nat, grants: seq<nat> -> bool)
      requires 0 < base && base + HDR <= lo
      ensures Valid() && live == [] && obtained == 0 && calls == []
      ensures this.base == base && this.lo == lo && this.grants == grants
    {
      this.base, this.lo, this.grants, calls := base, lo, grants, [];
      ptr, size, freep, brk := map[], map[], 0, lo;
      list, at, live, obtained := [], 0, [], 0;
    }

    /** The loop of free: walk the circle from freep to the place of bp. */
    method FindPlace(bp: nat, ghost want: nat) returns (p: nat)
      requires Valid() && freep != 0 && Between(list, want, bp) && base < bp
      ensures p == list[want]
    {
      p := freep;
      ghost var i := at;
      while true
        invariant 0 <= i < |list| && p == list[i]
        decreases if i <= want then want - i else want + |list| - i
      {
        assert NodeOk(base, lo, brk, ptr, size, list, i);
        if i < want {
          Ordered(base, lo, brk, ptr, size, list, i, want);
        } else if want < i {
          Ordered(base, lo, brk, ptr, size, list, want, i);
        }
        if i + 1 < want {
          Ordered(base, lo, brk, ptr, size, list, i + 1, want);
        } else if want + 1 < i {
          Ordered(base, lo, brk, ptr, size, list, want + 1, i);
        }
        assert NodeOk(base, lo, brk, ptr, size, list, 0);
        if bp > p && bp < ptr[p] {
          break;
        }
        if p >= ptr[p] && (bp > p || bp < ptr[p]) {
          break;
        }
        p := ptr[p];
        i := if i + 1 < |list| then i + 1 else 0;
      }
    }

    /** The first if of free: bp takes over its right neighbour, or points to it. */
    method JoinRight(bp: nat, p: nat, ghost j: nat)
      requires Insertable(base, lo, brk, ptr, size, list, bp, j) && AllIn(size, list) && p == list[j]
      modifies this`ptr, this`size
      ensures size == MergedSize(old(size), list, j, bp)
      ensures ptr == old(ptr)[bp := FirstOr(Rest(old(size), list, j, bp), base)]
    {
      Neighbours(base, lo, brk, ptr, size, list, bp, j);
      assert NodeOk(base, lo, brk, ptr, size, list, j) && NodeOk(base, lo, brk, ptr, size, list, 0);
      assert j + 1 < |list| ==> NodeOk(base, lo, brk, ptr, size, list, j + 1);
      if bp + HDR * size[bp] == ptr[p] {
        size := size[bp := size[bp] + size[ptr[p]]];
        ptr := ptr[bp := ptr[ptr[p]]];
      } else {
        ptr := ptr[bp := ptr[p]];
      }
    }

    /** The second if of free: p takes over bp, or points to it. */
    method JoinLeft(bp: nat, p: nat, ghost j: nat, ghost k: nat, ghost ptr0: map<nat, nat>, ghost size0: map<nat, nat>)
      returns (ghost g: nat)
      requires HeapOk(base, lo, brk, ptr0, size0, list, live, obtained) && k < |live| && bp == live[k].addr
      requires Insertable(base, lo, brk, ptr0, size0, list, bp, j) && p == list[j]
      requires size == MergedSize(size0, list, j, bp) && ptr == ptr0[bp := FirstOr(Rest(size0, list, j, bp), base)]
      modifies this`ptr, this`size, this`list
      ensures HeapOk(base, lo, brk, ptr, size, list, Drop(live, k), obtained)
      ensures j < |list| && p == list[j] && Holds(size, list, g, live[k].addr, live[k].units)
    {
      ghost var list0, rest := list, Rest(size0, list, j, bp);
      Neighbours(base, lo, brk, ptr0, size0, list, bp, j);
      if p + HDR * size[p] == bp {
        size := size[p := size[p] + size[bp]];
        ptr := ptr[p := ptr[bp]];
        list := list[..j + 1] + rest;
        MergedHeap(base, lo, brk, ptr0, size0, list0, live, obtained, k, j, ptr, size, list);
        g := j;
      } else {
        ptr := ptr[p := bp];
        list := list[..j + 1] + [bp] + rest;
        InsertedHeap(base, lo, brk, ptr0, size0, list0, live, obtained, k, j, ptr, list);
        g := j + 1;
      }
    }

    /** Both ifs of free. */
    method PutBack(bp: nat, p: nat, ghost j: nat, ghost k: nat) returns (ghost g: nat)
      requires HeapOk(base, lo, brk, ptr, size, list, live, obtained) && k < |live| && bp == live[k].addr
      requires Insertable(base, lo, brk, ptr, size, list, bp, j) && p == list[j]
      modifies this`ptr, this`size, this`list
      ensures HeapOk(base, lo, brk, ptr, size, list, Drop(live, k), obtained)
      ensures j < |list| && p == list[j] != 0 && Holds(size, list, g, live[k].addr, live[k].units)
    {
      ghost var ptr0, size0 := ptr, size;
      Distinct(base, lo, brk, ptr, size, list);
      JoinRight(bp, p, j);
      g := JoinLeft(bp, p, j, k, ptr0, size0);
      assert NodeOk(base, lo, brk, ptr, size, list, j);
    }

    /** free: the block goes back to the list, merged with what it touches. It is then part of free block g. */
    method Free(ap: nat, ghost k: nat) returns (ghost g: nat)
      requires Valid() && k < |live| && ap == live[k].addr + HDR
      modifies this
      ensures Valid() && freep != 0 && live == Drop(old(live), k) && obtained == old(obtained) && brk == old(brk)
      ensures calls == old(calls)
      ensures Holds(size, list, g, old(live)[k].addr, old(live)[k].units)
    {
      var bp: nat := ap - HDR;
      LiveInsertable(base, lo, brk, ptr, size, list, live, obtained, k);
      ghost var j := Place(list, bp, |list|);
      var p: nat := FindPlace(bp, j);
      g := PutBack(bp, p, j, k);
      freep, at := p, j;
      live := Drop(live, k);
    }

    /** The system call: the break moves up by n bytes if the kernel grants it, or not at all. */
    method Sbrk(n: nat) returns (ok: bool, a: nat)
      modifies this`brk, this`calls
      ensures calls == old(calls) + [n] && ok == grants(calls)
      ensures a == old(brk) && brk == if ok then old(brk) + n else old(brk)
    {
      calls := calls + [n];
      ok, a := grants(calls), brk;
      if ok {
        brk := brk + n;
      }
    }

    /** The program itself may move the break, so that the next core does not join the last. */
    method OtherSbrk(n: nat) returns (ok: bool)
      requires Valid()
      modifies this`brk, this`calls
      ensures Valid()
    {
      var a: nat;
      ghost var brk0 := brk;
      ok, a := Sbrk(n);
      if freep != 0 {
        MoreRoom(base, lo, brk0, brk, ptr, size, list, live, obtained);
      }
    }

    /** hp->s.size = nu: the new core is a block that is in use, until it is given to free. */
    method SetCore(p: nat, n: nat, ghost brk0: nat)
      requires HeapOk(base, lo, brk0, ptr, size, list, live, obtained) && at < |list| && freep == list[at] != 0
      requires n >= 1 && p == brk0 && brk == brk0 + n * HDR
      modifies this`size, this`live, this`obtained
      ensures Valid() && live == old(live) + [Block(p, n)] && obtained == old(obtained) + n
    {
      ghost var size1, live1, sum := size[p := n], live + [Block(p, n)], obtained + n;
      NewCore(base, lo, brk0, brk, ptr, size, list, live, obtained, n);
      assert HeapOk(base, lo, brk, ptr, size1, list, live1, sum);
      size := size[p := n];
      live, obtained := live1, sum;
    }

    /** morecore: at least 4096 units from sbrk, which is asked exactly once, put on the free list by free. It fails
        exactly if the kernel refuses them. */
    method Morecore(nu: nat) returns (ok: bool)
      requires Valid() && freep != 0 && nu > 0 && HDR * nu < INT_LIMIT
      modifies this
      ensures Valid() && freep != 0 && live == old(live)
      ensures calls == old(calls) + [HDR * Core(nu)] && ok == grants(calls)
      ensures !ok ==> obtained == old(obtained) && ptr == old(ptr) && size == old(size) && list == old(list)
      ensures !ok ==> at == old(at)
      ensures ok ==> obtained == old(obtained) + Core(nu) && FitsIn(size, list, nu)
    {
      var n := if nu < MIN_CORE then MIN_CORE else nu;
      var p: nat;
      ghost var brk0 := brk;
      ok, p := Sbrk(n * HDR);
      if !ok { return; }
      SetCore(p, n, brk0);
      ghost var last := |live| - 1;
      DropLast(old(live), Block(p, n));
      ghost var g := Free(p + HDR, last);
      HoldsSize(size, list, g, p, n);
    }

    /** Node p is large enough: take all of it, or its tail. */
    method Take(prevp: nat, p: nat, n: nat, ghost i: nat) returns (r: nat)
      requires Valid() && freep != 0 && n >= 1 && 1 <= i < |list| && p == list[i] && prevp == list[i - 1]
      requires size[p] >= n
      modifies this`ptr, this`size, this`list
      ensures HeapOk(base, lo, brk, ptr, size, list, live + [Block(r, n)], obtained)
      ensures i <= |list| && list[i - 1] == prevp != 0
    {
      assert NodeOk(base, lo, brk, ptr, size, list, i) && NodeOk(base, lo, brk, ptr, size, list, i - 1);
      ghost var ptr0, size0, list0 := ptr, size, list;
      if size[p] == n {
        ptr := ptr[prevp := ptr[p]];
        r := p;
        list := list[..i] + list[i + 1..];
        TakeWhole(base, lo, brk, ptr0, size, list0, live, obtained, i, ptr, list, live + [Block(r, n)]);
      } else {
        size := size[p := size[p] - n];
        r := p + HDR * size[p];
        size := size[r := n];
        TakeTail(base, lo, brk, ptr, size0, list, live, obtained, i, n, r, size, live + [Block(r, n)]);
      }
    }

    /** The end of malloc: take the block, and start the next search from the node before it. */
    method HandOut(prevp: nat, p: nat, n: nat, ghost i: nat) returns (ap: nat)
      requires Valid() && freep != 0 && n >= 1 && 1 <= i < |list| && p == list[i] && prevp == list[i - 1]
      requires size[p] >= n
      modifies this
      ensures Valid() && ap >= HDR && live == old(live) + [Block(ap - HDR, n)] && obtained == old(obtained)
      ensures calls == old(calls)
    {
      var r := Take(prevp, p, n, i);
      ghost var j: nat := i - 1;
      freep, at := prevp, j;
      live := live + [Block(r, n)];
      return r + HDR;
    }

    /** The search of malloc's loop, from the node behind freep up to freep itself. */
    method Search(n: nat) returns (found: bool, prevp: nat, p: nat, ghost i: nat)
      requires Valid() && freep != 0 && n >= 1
      ensures found ==> 1 <= i < |list| && p == list[i] && prevp == list[i - 1] && size[p] >= n
      ensures found <==> FitsIn(size, list, n)
    {
      Distinct(base, lo, brk, ptr, size, list);
      assert NodeOk(base, lo, brk, ptr, size, list, 0);
      assert NodeOk(base, lo, brk, ptr, size, list, at);
      prevp := freep;
      p := ptr[prevp];
      i := After(at, |list|);
      while true
        invariant 0 <= i < |list| && p == list[i] && prevp == list[Before(i, |list|)]
        invariant SmallTo(size, list, n, at, i)
        decreases |list| - Steps(at, i, |list|)
      {
        assert NodeOk(base, lo, brk, ptr, size, list, i);
        if size[p] >= n {
          return true, prevp, p, i;
        }
        if p == freep {
          assert i == at;
          SmallAll(size, list, n, at);
          return false, prevp, p, i;
        }
        SmallMore(size, list, n, at, i);
        prevp, p, i := p, ptr[p], After(i, |list|);
      }
    }

    /** The first call of malloc sets up the list with base alone. */
    method Init(ghost n: nat)
      requires Valid() && n >= 1
      modifies this
      ensures Valid() && freep != 0 && live == old(live) && obtained == old(obtained) && brk == old(brk)
      ensures FitsIn(size, list, n) == old(Fits(n)) && calls == old(calls)
    {
      if freep == 0 {
        freep := base;
        ptr, size := map[base := base], map[base := 0];
        list, at := [base], 0;
        assert NodeOk(base, lo, brk, ptr, size, list, 0);
        assert FreeUnits(size, list) == 0;
      }
    }

    /** The calls of sbrk after one more, by morecore for n units. */
    function Asked(calls: seq<nat>, n: nat): (r: seq<nat>) {
      calls + [HDR * Core(n)]
    }

    /** Some free block has n units. */
    ghost predicate Fits(n: nat)
      reads this
    {
      freep != 0 && FitsIn(size, list, n)
    }

    /** One pass of malloc's loop round the list, and what follows it. */
    method Round(n: nat) returns (ap: nat, again: bool)
      requires Valid() && freep != 0 && n >= 1 && HDR * n < INT_LIMIT
      modifies this
      ensures Valid() && (!again ==> (ap != 0 <==> old(FitsIn(size, list, n))))
      ensures calls == if old(FitsIn(size, list, n)) then old(calls) else Asked(old(calls), n)
      ensures again == (!old(FitsIn(size, list, n)) && grants(Asked(old(calls), n)))
      ensures again ==> freep != 0 && !old(FitsIn(size, list, n)) && FitsIn(size, list, n)
      ensures again ==> live == old(live) && obtained == old(obtained) + Core(n)
      ensures !again ==> obtained == old(obtained)
      ensures !again && ap == 0 ==> live == old(live)
      ensures !again && ap != 0 ==> ap >= HDR && live == old(live) + [Block(ap - HDR, n)]
    {
      var found, prevp, p, i := Search(n);
      if found {
        ap := HandOut(prevp, p, n, i);
        return ap, false;
      }
      again := Morecore(n);
      return 0, again;
    }

    /** malloc, for n units. */
    method MallocUnits(n: nat) returns (ap: nat)
      requires Valid() && n >= 1 && HDR * n < INT_LIMIT
      modifies this
      ensures Valid()
      ensures ap == 0 ==> live == old(live) && obtained == old(obtained)
      ensures ap != 0 ==> ap >= HDR && live == old(live) + [Block(ap - HDR, n)]
      ensures ap == 0 <==> !old(Fits(n)) && !grants(Asked(old(calls), n))
      ensures old(Fits(n)) ==> calls == old(calls) && obtained == old(obtained)
      ensures !old(Fits(n)) ==> calls == Asked(old(calls), n) && (ap != 0 ==> obtained == old(obtained) + Core(n))
    {
      ghost var fits := Fits(n);
      Init(n);
      ghost var tried, core := false, obtained;
      while true
        invariant Valid() && freep != 0 && live == old(live) && obtained == core && (tried ==> !fits)
        invariant core == old(obtained) + if tried then Core(n) else 0
        invariant FitsIn(size, list, n) == (fits || tried)
        invariant calls == if tried then Asked(old(calls), n) else old(calls)
        invariant tried ==> grants(Asked(old(calls), n))
        decreases !tried
      {
        var again;
        ap, again := Round(n);
        if !again { return; }
        tried, core := true, obtained;
      }
    }

    /** malloc: a block that was free or is new core, apart from every other live block, with room for the request
        unless its rounding wraps around. sbrk is called only if no free block is large enough, and then exactly once,
        for the units of Core; the result is 0 exactly if the kernel refuses that call. The search ends after at most
        one call of morecore: the second pass round the list finds the new core. */
    method Malloc(nbytes: nat) returns (ap: nat)
      requires Valid() && nbytes < WORD_LIMIT && HDR * UnitsFor(nbytes) < INT_LIMIT
      modifies this
      ensures Valid()
      ensures ap == 0 ==> live == old(live) && obtained == old(obtained)
      ensures ap != 0 ==>
                && ap >= HDR && live == old(live) + [Block(ap - HDR, UnitsFor(nbytes))]
                && (HDR * (UnitsFor(nbytes) - 1) >= nbytes <==> nbytes <= WORD_LIMIT - HDR)
      ensures ap == 0 <==> !old(Fits(UnitsFor(nbytes))) && !grants(old(calls) + [HDR * Core(UnitsFor(nbytes))])
      ensures old(Fits(UnitsFor(nbytes))) ==> calls == old(calls) && obtained == old(obtained)
      ensures !old(Fits(UnitsFor(nbytes))) ==> calls == old(calls) + [HDR * Core(UnitsFor(nbytes))]
      ensures !old(Fits(UnitsFor(nbytes))) && ap != 0 ==> obtained == old(obtained) + Core(UnitsFor(nbytes))
    {
      UnitsEnough(nbytes);
      ap := MallocUnits(UnitsFor(nbytes));
    }
  }
}
