/** proc.c: the process table. Each section under ptable.lock is one step; a process is named by its slot. */
module Procs {
  import opened Options
  import opened ProcStates
  import opened Words

  const INIT := 0             // initproc: the first process is put in the first slot

  /** What a process sleeps on: a process in wait sleeps on itself, all other channels are elsewhere. */
  datatype Chan = Null | Of(p: nat) | Elsewhere(id: nat)

  /** Where a process is in the kernel between two steps: in fork with np allocated, its parent field set or not yet; or
      in the loop of wait. */
  datatype Control = Plain | Forking(np: nat, named: bool) | Waiting

  /** waited and ran are the reference for wtime and rutime: counted at every tick by the state the process is in.
      serial is the reference for pid: how many processes there had been. */
  datatype Proc = Proc(state: ProcState, pid: Uint, parent: Option<nat>, chan: Chan, killed: bool,
                       wtime: nat, rutime: nat, snapticks: nat, control: Control, waited: nat, ran: nat, serial: nat)

  type Table = t: seq<Proc> | |t| == NPROC witness seq(NPROC, _ => Nobody())

  /** born is the serial number of the next process; nextpid is a 32-bit counter. */
  datatype State = State(procs: Table, nextpid: Uint, ticks: nat, born: nat)

  function Nobody(): (p: Proc) {
    Proc(UNUSED, 0, None, Null, false, 0, 0, 0, Plain, 0, 0, 0)
  }

  // ---------- unsigned arithmetic ----------

  /** a + b and a - b on 32-bit numbers. */
  function Plus(a: int, b: int): (c: nat) {
    (a + b) % WORD_LIMIT
  }

  function Minus(a: int, b: int): (c: nat) {
    (a - b) % WORD_LIMIT
  }

  /** Charging all the time since the snapshot, in one go, gives what one charge per tick gives. */
  lemma ChargeOnce(w: nat, t: nat, s: nat, n: nat)
    requires Plus(w, Minus(t, s)) == n % WORD_LIMIT
    ensures Plus(w, Minus(Plus(t, 1), s)) == (n + 1) % WORD_LIMIT
  {
    var a, b, c := (t - s) / WORD_LIMIT, (t + 1) / WORD_LIMIT, (Plus(t, 1) - s) / WORD_LIMIT;
    Shift(w + t - s, -a);
    Shift(w + t - s + 1, -b - c);
    Shift(n + 1, (w + t - s) / WORD_LIMIT - n / WORD_LIMIT);
  }

  lemma Shift(x: int, k: int)
    ensures (x + k * WORD_LIMIT) % WORD_LIMIT == x % WORD_LIMIT
  {}

  // ---------- steps ----------

  datatype Event =
    | Tick
    | Schedule(p: nat)
    | Yield(p: nat)
    | Sleep(p: nat, id: nat)
    | Wakeup(id: nat)
    | Kill(p: nat)
    | Fork(p: nat, np: nat)
    | ForkFail(p: nat)
    | ForkName(p: nat)
    | ForkDone(p: nat)
    | Exit(p: nat)
    | Reap(p: nat, c: nat, two: bool)
    | NoChild(p: nat)
    | WaitSleep(p: nat)

  predicate IsChild(ps: Table, c: nat, p: nat) {
    c < NPROC && ps[c].parent == Some(p)
  }

  predicate ZombieChild(ps: Table, c: nat, p: nat) {
    IsChild(ps, c, p) && ps[c].state == ZOMBIE
  }

  ghost predicate HasChild(ps: Table, p: nat) {
    exists c :: IsChild(ps, c, p)
  }

  ghost predicate HasZombie(ps: Table, p: nat) {
    exists c :: ZombieChild(ps, c, p)
  }

  /** Process p is on a CPU and in the given part of the kernel. */
  predicate On(ps: Table, p: nat, control: Control) {
    p < NPROC && ps[p].state == RUNNING && ps[p].control == control
  }

  predicate InWait(ps: Table, p: nat) {
    On(ps, p, Plain) || On(ps, p, Waiting)
  }

  ghost predicate Enabled(s: State, e: Event) {
    var ps := s.procs;
    match e
    case Tick => true
    case Schedule(p) => p < NPROC && ps[p].state == RUNNABLE
    case Yield(p) => p < NPROC && ps[p].state == RUNNING
    case Sleep(p, id) => On(ps, p, Plain)
    case Wakeup(id) => true
    case Kill(p) => p < NPROC
    case Fork(p, np) =>
      && On(ps, p, Plain) && np < NPROC && ps[np].state == UNUSED
      && forall i | 0 <= i < np :: ps[i].state != UNUSED
    case ForkFail(p) => p < NPROC && ps[p].control.Forking? && On(ps, p, Forking(ps[p].control.np, false))
    case ForkName(p) => p < NPROC && ps[p].control.Forking? && On(ps, p, Forking(ps[p].control.np, false))
    case ForkDone(p) => p < NPROC && ps[p].control.Forking? && On(ps, p, Forking(ps[p].control.np, true))
    case Exit(p) => On(ps, p, Plain) && p != INIT
    case Reap(p, c, _) => InWait(ps, p) && ZombieChild(ps, c, p) && forall i | 0 <= i < c :: !ZombieChild(ps, i, p)
    case NoChild(p) => InWait(ps, p) && !HasZombie(ps, p) && (!HasChild(ps, p) || ps[p].killed)
    case WaitSleep(p) => InWait(ps, p) && !HasZombie(ps, p) && HasChild(ps, p) && !ps[p].killed
  }

  /** A tick passes for a process. */
  function Ticked(p: Proc): (q: Proc) {
    match p.state
    case EMBRYO => p.(waited := p.waited + 1)
    case RUNNABLE => p.(waited := p.waited + 1)
    case RUNNING => p.(ran := p.ran + 1)
    case _ => p
  }

  /** wakeup1 for one slot. */
  function Woken(p: Proc, chan: Chan, ticks: nat): (q: Proc) {
    if p.state == SLEEPING && p.chan == chan then p.(state := RUNNABLE, snapticks := ticks) else p
  }

  function WakeAll(ps: Table, chan: Chan, ticks: nat): (r: Table) {
    seq(NPROC, i requires 0 <= i < NPROC => Woken(ps[i], chan, ticks))
  }

  /** Children of p are passed to init. */
  function Adopted(c: Proc, p: nat): (d: Proc) {
    if c.parent == Some(p) then c.(parent := Some(INIT)) else c
  }

  function AdoptAll(ps: Table, p: nat): (r: Table) {
    seq(NPROC, i requires 0 <= i < NPROC => Adopted(ps[i], p))
  }

  /** The time that p has run for is charged. */
  function ChargeRun(p: Proc, ticks: nat): (q: Proc) {
    p.(rutime := Plus(p.rutime, Minus(ticks, p.snapticks)))
  }

  function ParentChan(p: Proc): (c: Chan) {
    match p.parent case Some(q) => Of(q) case None => Null
  }

  /** exit, from acquire to sched. */
  ghost function ExitTable(ps: Table, p: nat, ticks: nat): (r: Table)
    requires p < NPROC
  {
    var woken := WakeAll(ps, ParentChan(ps[p]), ticks);
    var passed := AdoptAll(woken, p);
    var told := if HasZombie(woken, p) then WakeAll(passed, Of(INIT), ticks) else passed;
    told[p := ChargeRun(told[p].(state := ZOMBIE), ticks)]
  }

  /** A slot after its zombie has been waited for; wait2 clears the two times too. */
  function Reaped(c: Proc, two: bool): (d: Proc) {
    var d := c.(state := UNUSED, pid := 0, parent := None, killed := false);
    if two then d.(wtime := 0, rutime := 0) else d
  }

  ghost function Next(s: State, e: Event): (t: State)
    requires Enabled(s, e)
  {
    var ps := s.procs;
    match e
    case Tick => State(seq(NPROC, i requires 0 <= i < NPROC => Ticked(ps[i])), s.nextpid, Plus(s.ticks, 1), s.born)
    case Schedule(p) =>
      s.(procs := ps[p := ps[p].(state := RUNNING, chan := Null, snapticks := s.ticks,
                                 wtime := Plus(ps[p].wtime, Minus(s.ticks, ps[p].snapticks)))])
    case Yield(p) => s.(procs := ps[p := ChargeRun(ps[p], s.ticks).(state := RUNNABLE, snapticks := s.ticks)])
    case Sleep(p, id) => s.(procs := ps[p := ChargeRun(ps[p], s.ticks).(state := SLEEPING, chan := Elsewhere(id))])
    case Wakeup(id) => s.(procs := WakeAll(ps, Elsewhere(id), s.ticks))
    case Kill(p) => s.(procs := ps[p := Woken(ps[p], ps[p].chan, s.ticks).(killed := true)])
    case Fork(p, np) =>
      State(ps[p := ps[p].(control := Forking(np, false))]
              [np := ps[np].(state := EMBRYO, pid := s.nextpid, wtime := 0, rutime := 0, snapticks := s.ticks,
                             waited := 0, ran := 0, serial := s.born)],
            Plus(s.nextpid, 1), s.ticks, s.born + 1)
    case ForkFail(p) =>
      var np := ps[p].control.np;
      if np < NPROC then s.(procs := ps[p := ps[p].(control := Plain)][np := ps[np].(state := UNUSED)]) else s
    case ForkName(p) =>
      var np := ps[p].control.np;
      if np < NPROC then
        s.(procs := ps[p := ps[p].(control := Forking(np, true))][np := ps[np].(parent := Some(p))])
      else s
    case ForkDone(p) =>
      var np := ps[p].control.np;
      if np < NPROC then s.(procs := ps[p := ps[p].(control := Plain)][np := ps[np].(state := RUNNABLE)]) else s
    case Exit(p) => s.(procs := ExitTable(ps, p, s.ticks))
    case Reap(p, c, two) => s.(procs := ps[p := ps[p].(control := Plain)][c := Reaped(ps[c], two)])
    case NoChild(p) => s.(procs := ps[p := ps[p].(control := Plain)])
    case WaitSleep(p) =>
      s.(procs := ps[p := ChargeRun(ps[p], s.ticks).(state := SLEEPING, chan := Of(p), control := Waiting)])
  }

  /** userinit at boot. */
  function Boot(): (s: State) {
    var none: Table := seq(NPROC, _ => Nobody());
    State(none[INIT := Nobody().(state := RUNNABLE, pid := 1, serial := 1)], 2, 0, 2)
  }

  // ---------- the invariant ----------

  predicate Alive(p: Proc) {
    p.state == SLEEPING || p.state == RUNNABLE || p.state == RUNNING
  }

  /** What has been charged, with what is still to be charged in the present state, is what the ticks have counted. */
  predicate Accounted(p: Proc, ticks: nat) {
    match p.state
    case UNUSED => true
    case EMBRYO => Plus(p.wtime, Minus(ticks, p.snapticks)) == p.waited % WORD_LIMIT && p.rutime == p.ran % WORD_LIMIT
    case RUNNABLE => Plus(p.wtime, Minus(ticks, p.snapticks)) == p.waited % WORD_LIMIT && p.rutime == p.ran % WORD_LIMIT
    case RUNNING => p.wtime == p.waited % WORD_LIMIT && Plus(p.rutime, Minus(ticks, p.snapticks)) == p.ran % WORD_LIMIT
    case SLEEPING => p.wtime == p.waited % WORD_LIMIT && p.rutime == p.ran % WORD_LIMIT
    case ZOMBIE => p.wtime == p.waited % WORD_LIMIT && p.rutime == p.ran % WORD_LIMIT
  }

  /** A process has a live parent, older than itself. */
  predicate ParentOk(ps: Table, i: nat)
    requires i < NPROC
  {
    match ps[i].parent
    case None => i == INIT || ps[i].state == UNUSED || ps[i].state == EMBRYO
    case Some(q) => q < NPROC && Alive(ps[q]) && ps[q].serial < ps[i].serial && ps[i].state != UNUSED && i != INIT
  }

  /** An embryo belongs to the one process that is forking it. */
  predicate ForkOk(ps: Table, i: nat)
    requires i < NPROC
  {
    && (ps[i].control.Forking? ==>
          var np := ps[i].control.np;
          && (ps[i].state == RUNNING || ps[i].state == RUNNABLE) && np < NPROC
          && ps[np].state == EMBRYO && ps[i].serial < ps[np].serial
          && ps[np].parent == (if ps[i].control.named then Some(i) else None))
    && (ps[i].state == EMBRYO && ps[i].parent.Some? ==>
          var q := ps[i].parent.value; q < NPROC && ps[q].control == Forking(i, true))
    && (ps[i].control != Plain ==> Alive(ps[i]))
  }

  /** Asleep in wait: there is a child to wait for, and none that has exited. */
  ghost predicate WaitOk(ps: Table, i: nat)
    requires i < NPROC
  {
    ps[i].state == SLEEPING ==>
      && (ps[i].control == Waiting <==> ps[i].chan.Of?) && ps[i].chan != Null
      && (ps[i].chan.Of? ==> ps[i].chan == Of(i) && !ps[i].killed && HasChild(ps, i) && !HasZombie(ps, i))
  }

  /** The pid is the serial number, in 32 bits. */
  predicate Numbered(p: Proc, born: nat) {
    p.state != UNUSED ==> 0 < p.serial < born && p.pid == p.serial % WORD_LIMIT
  }

  ghost predicate SlotOk(s: State, i: nat)
    requires i < NPROC
  {
    && Numbered(s.procs[i], s.born) && Accounted(s.procs[i], s.ticks)
    && ParentOk(s.procs, i) && ForkOk(s.procs, i) && WaitOk(s.procs, i)
  }

  /** Processes have different serial numbers, and different processes fork different embryos. */
  predicate Apart(ps: Table, i: nat, j: nat)
    requires i < NPROC && j < NPROC
  {
    && (ps[i].state != UNUSED && ps[j].state != UNUSED ==> ps[i].serial != ps[j].serial)
    && (ps[i].control.Forking? && ps[j].control.Forking? ==> ps[i].control.np != ps[j].control.np)
  }

  ghost predicate Inv(s: State) {
    && Alive(s.procs[INIT]) && s.procs[INIT].serial == 1 && s.born > 1 && s.nextpid == s.born % WORD_LIMIT
    && (forall i | 0 <= i < NPROC :: SlotOk(s, i))
    && (forall i, j | 0 <= i < NPROC && 0 <= j < NPROC && i != j :: Apart(s.procs, i, j))
  }

  lemma BootInv()
    ensures Inv(Boot())
  {}

  /** The children of i stay the same, and none of them exits. */
  predicate SameFamily(ps: Table, qs: Table, i: nat) {
    forall c | 0 <= c < NPROC ::
      && (qs[c].parent == Some(i) <==> ps[c].parent == Some(i))
      && (ps[c].parent == Some(i) ==> (qs[c].state == ZOMBIE <==> ps[c].state == ZOMBIE))
  }

  lemma FamilyKept(ps: Table, qs: Table, i: nat)
    requires SameFamily(ps, qs, i)
    ensures HasChild(qs, i) == HasChild(ps, i) && HasZombie(qs, i) == HasZombie(ps, i)
  {
    if c :| IsChild(ps, c, i) { assert IsChild(qs, c, i); }
    if c :| IsChild(qs, c, i) { assert IsChild(ps, c, i); }
    if c :| ZombieChild(ps, c, i) { assert ZombieChild(qs, c, i); }
    if c :| ZombieChild(qs, c, i) { assert ZombieChild(ps, c, i); }
  }

  /** A sleeper that stays as it is, with the family it has, may sleep on. */
  lemma WaitKept(ps: Table, qs: Table, i: nat)
    requires i < NPROC && WaitOk(ps, i) && (qs[i].state == SLEEPING ==> qs[i] == ps[i] && SameFamily(ps, qs, i))
    ensures WaitOk(qs, i)
  {
    if qs[i].state == SLEEPING {
      FamilyKept(ps, qs, i);
    }
  }

  lemma TickedAccount(p: Proc, t: nat)
    requires Accounted(p, t)
    ensures Accounted(Ticked(p), Plus(t, 1))
  {
    if p.state == RUNNING {
      ChargeOnce(p.rutime, t, p.snapticks, p.ran);
    } else if p.state == EMBRYO || p.state == RUNNABLE {
      ChargeOnce(p.wtime, t, p.snapticks, p.waited);
    }
  }

  lemma WokenAccount(p: Proc, chan: Chan, t: nat)
    requires Accounted(p, t)
    ensures Accounted(Woken(p, chan, t), t)
  {}

  /** Nobody comes, goes or exits in slot i; it is accounted for; and if it sleeps it did so before or may do so. */
  ghost predicate Kept(s: State, t: State, i: nat)
    requires i < NPROC
  {
    var p, q := s.procs[i], t.procs[i];
    && q.pid == p.pid && q.serial == p.serial && q.parent == p.parent && Accounted(q, t.ticks)
    && (if Alive(p) then Alive(q) else q.state == p.state)
    && (q.control == p.control || (!p.control.Forking? && !q.control.Forking? && Alive(q)))
    && (q.state == SLEEPING ==>
          || (p.state == SLEEPING && q.chan == p.chan && q.killed == p.killed && q.control == p.control)
          || (p.control == q.control == Plain && q.chan.Elsewhere?)
          || (&& q == q.(control := Waiting, chan := Of(i), killed := false)
              && HasChild(s.procs, i) && !HasZombie(s.procs, i)))
  }

  lemma KeptSlot(s: State, t: State, i: nat)
    requires Inv(s) && i < NPROC && t.born == s.born && forall j | 0 <= j < NPROC :: Kept(s, t, j)
    ensures SlotOk(t, i)
  {
    assert SlotOk(s, i) && Kept(s, t, i);
    if s.procs[i].parent.Some? { assert Kept(s, t, s.procs[i].parent.value); }
    if s.procs[i].control.Forking? { assert Kept(s, t, s.procs[i].control.np); }
    forall c | 0 <= c < NPROC
      ensures t.procs[c].parent == s.procs[c].parent && (t.procs[c].state == ZOMBIE <==> s.procs[c].state == ZOMBIE) {
      assert Kept(s, t, c);
    }
    FamilyKept(s.procs, t.procs, i);
  }

  /** A step that keeps every slot keeps the invariant. */
  lemma KeptInv(s: State, t: State)
    requires Inv(s) && t.nextpid == s.nextpid && t.born == s.born && forall i | 0 <= i < NPROC :: Kept(s, t, i)
    ensures Inv(t)
  {
    assert Kept(s, t, INIT);
    forall i | 0 <= i < NPROC ensures SlotOk(t, i) {
      KeptSlot(s, t, i);
    }
    forall i, j | 0 <= i < NPROC && 0 <= j < NPROC && i != j ensures Apart(t.procs, i, j) {
      assert Apart(s.procs, i, j) && Kept(s, t, i) && Kept(s, t, j);
    }
  }

  lemma TickInv(s: State)
    requires Inv(s) && Enabled(s, Tick)
    ensures Inv(Next(s, Tick))
  {
    var t := Next(s, Tick);
    forall i | 0 <= i < NPROC ensures Kept(s, t, i) {
      assert SlotOk(s, i);
      TickedAccount(s.procs[i], s.ticks);
    }
    KeptInv(s, t);
  }

  lemma ScheduleInv(s: State, p: nat)
    requires Inv(s) && Enabled(s, Schedule(p))
    ensures Inv(Next(s, Schedule(p)))
  {
    var t := Next(s, Schedule(p));
    forall i | 0 <= i < NPROC ensures Kept(s, t, i) {
      assert SlotOk(s, i);
    }
    KeptInv(s, t);
  }

  lemma YieldInv(s: State, p: nat)
    requires Inv(s) && Enabled(s, Yield(p))
    ensures Inv(Next(s, Yield(p)))
  {
    var t := Next(s, Yield(p));
    forall i | 0 <= i < NPROC ensures Kept(s, t, i) {
      assert SlotOk(s, i);
    }
    KeptInv(s, t);
  }

  lemma SleepInv(s: State, p: nat, id: nat)
    requires Inv(s) && Enabled(s, Sleep(p, id))
    ensures Inv(Next(s, Sleep(p, id)))
  {
    var t := Next(s, Sleep(p, id));
    forall i | 0 <= i < NPROC ensures Kept(s, t, i) {
      assert SlotOk(s, i);
    }
    KeptInv(s, t);
  }

  lemma WakeupInv(s: State, id: nat)
    requires Inv(s) && Enabled(s, Wakeup(id))
    ensures Inv(Next(s, Wakeup(id)))
  {
    var t := Next(s, Wakeup(id));
    forall i | 0 <= i < NPROC ensures Kept(s, t, i) {
      assert SlotOk(s, i);
      WokenAccount(s.procs[i], Elsewhere(id), s.ticks);
    }
    KeptInv(s, t);
  }

  lemma KillInv(s: State, p: nat)
    requires Inv(s) && Enabled(s, Kill(p))
    ensures Inv(Next(s, Kill(p)))
  {
    var t := Next(s, Kill(p));
    forall i | 0 <= i < NPROC ensures Kept(s, t, i) {
      assert SlotOk(s, i);
      WokenAccount(s.procs[i], s.procs[i].chan, s.ticks);
    }
    KeptInv(s, t);
  }

  lemma NoChildInv(s: State, p: nat)
    requires Inv(s) && Enabled(s, NoChild(p))
    ensures Inv(Next(s, NoChild(p)))
  {
    var t := Next(s, NoChild(p));
    forall i | 0 <= i < NPROC ensures Kept(s, t, i) {
      assert SlotOk(s, i);
    }
    KeptInv(s, t);
  }

  lemma WaitSleepInv(s: State, p: nat)
    requires Inv(s) && Enabled(s, WaitSleep(p))
    ensures Inv(Next(s, WaitSleep(p)))
  {
    var t := Next(s, WaitSleep(p));
    forall i | 0 <= i < NPROC ensures Kept(s, t, i) {
      assert SlotOk(s, i);
    }
    KeptInv(s, t);
  }

  lemma ForkApart(s: State, p: nat, np: nat, i: nat, j: nat)
    requires Inv(s) && Enabled(s, Fork(p, np)) && i < NPROC && j < NPROC && i != j
    ensures Apart(Next(s, Fork(p, np)).procs, i, j)
  {
    assert Apart(s.procs, i, j) && SlotOk(s, i) && SlotOk(s, j);
  }

  lemma ForkSlot(s: State, p: nat, np: nat, i: nat)
    requires Inv(s) && Enabled(s, Fork(p, np)) && i < NPROC
    ensures SlotOk(Next(s, Fork(p, np)), i)
  {
    var t := Next(s, Fork(p, np));
    assert SlotOk(s, p) && SlotOk(s, np);
    assert SlotOk(s, i) && (i != p ==> Apart(s.procs, i, p));
    WaitKept(s.procs, t.procs, i);
  }

  lemma ForkInv(s: State, p: nat, np: nat)
    requires Inv(s) && Enabled(s, Fork(p, np))
    ensures Inv(Next(s, Fork(p, np)))
  {
    var t := Next(s, Fork(p, np));
    assert SlotOk(s, p) && SlotOk(s, np) && SlotOk(s, INIT);
    forall i | 0 <= i < NPROC ensures SlotOk(t, i) {
      ForkSlot(s, p, np, i);
    }
    forall i, j | 0 <= i < NPROC && 0 <= j < NPROC && i != j ensures Apart(t.procs, i, j) {
      ForkApart(s, p, np, i, j);
    }
  }

  lemma ForkFailSlot(s: State, p: nat, i: nat)
    requires Inv(s) && Enabled(s, ForkFail(p)) && i < NPROC
    ensures SlotOk(Next(s, ForkFail(p)), i)
  {
    var t := Next(s, ForkFail(p));
    assert SlotOk(s, p) && SlotOk(s, s.procs[p].control.np);
    assert SlotOk(s, i) && (i != p ==> Apart(s.procs, i, p));
    WaitKept(s.procs, t.procs, i);
  }

  lemma ForkFailInv(s: State, p: nat)
    requires Inv(s) && Enabled(s, ForkFail(p))
    ensures Inv(Next(s, ForkFail(p)))
  {
    var t := Next(s, ForkFail(p));
    assert SlotOk(s, p) && SlotOk(s, s.procs[p].control.np) && SlotOk(s, INIT);
    forall i | 0 <= i < NPROC ensures SlotOk(t, i) {
      ForkFailSlot(s, p, i);
    }
    forall i, j | 0 <= i < NPROC && 0 <= j < NPROC && i != j ensures Apart(t.procs, i, j) {
      assert Apart(s.procs, i, j);
    }
  }

  lemma ForkDoneSlot(s: State, p: nat, i: nat)
    requires Inv(s) && Enabled(s, ForkDone(p)) && i < NPROC
    ensures SlotOk(Next(s, ForkDone(p)), i)
  {
    var t := Next(s, ForkDone(p));
    assert SlotOk(s, p) && SlotOk(s, s.procs[p].control.np);
    assert SlotOk(s, i) && (i != p ==> Apart(s.procs, i, p));
    WaitKept(s.procs, t.procs, i);
  }

  lemma ForkDoneInv(s: State, p: nat)
    requires Inv(s) && Enabled(s, ForkDone(p))
    ensures Inv(Next(s, ForkDone(p)))
  {
    var t := Next(s, ForkDone(p));
    assert SlotOk(s, p) && SlotOk(s, s.procs[p].control.np) && SlotOk(s, INIT);
    forall i | 0 <= i < NPROC ensures SlotOk(t, i) {
      ForkDoneSlot(s, p, i);
    }
    forall i, j | 0 <= i < NPROC && 0 <= j < NPROC && i != j ensures Apart(t.procs, i, j) {
      assert Apart(s.procs, i, j);
    }
  }

  lemma ForkNameSlot(s: State, p: nat, i: nat)
    requires Inv(s) && Enabled(s, ForkName(p)) && i < NPROC
    ensures SlotOk(Next(s, ForkName(p)), i)
  {
    var t := Next(s, ForkName(p));
    assert SlotOk(s, p) && SlotOk(s, s.procs[p].control.np);
    assert SlotOk(s, i) && (i != p ==> Apart(s.procs, i, p));
    WaitKept(s.procs, t.procs, i);
  }

  lemma ForkNameInv(s: State, p: nat)
    requires Inv(s) && Enabled(s, ForkName(p))
    ensures Inv(Next(s, ForkName(p)))
  {
    var t := Next(s, ForkName(p));
    assert SlotOk(s, p) && SlotOk(s, s.procs[p].control.np) && SlotOk(s, INIT);
    forall i | 0 <= i < NPROC ensures SlotOk(t, i) {
      ForkNameSlot(s, p, i);
    }
    forall i, j | 0 <= i < NPROC && 0 <= j < NPROC && i != j ensures Apart(t.procs, i, j) {
      assert Apart(s.procs, i, j);
    }
  }

  /** Exit of p wakes its parent, and init if there are exited children to pass on. */
  ghost predicate ExitWakes(ps: Table, p: nat, q: Proc)
    requires p < NPROC
  {
    q.state == SLEEPING && (q.chan == ParentChan(ps[p]) || (HasZombie(ps, p) && q.chan == Of(INIT)))
  }

  /** Another slot after exit. */
  lemma ExitSlot(ps: Table, p: nat, t: nat, i: nat)
    requires p < NPROC && i < NPROC && i != p
    ensures ExitTable(ps, p, t)[i]
            == Adopted(if ExitWakes(ps, p, ps[i]) then Woken(ps[i], ps[i].chan, t) else ps[i], p)
  {
    var woken := WakeAll(ps, ParentChan(ps[p]), t);
    FamilyKept(ps, woken, p);
  }

  /** Whoever is still asleep in wait has the children it had, or is init with some of p's that have not exited. */
  lemma ExitFamily(ps: Table, p: nat, t: nat, i: nat)
    requires p < NPROC && i < NPROC && i != p && p != INIT && ps[p].state == RUNNING
    requires ps[p].parent != Some(i) && ps[p].parent != Some(p) && (i == INIT ==> !HasZombie(ps, p))
    requires HasChild(ps, i) && !HasZombie(ps, i)
    ensures HasChild(ExitTable(ps, p, t), i) && !HasZombie(ExitTable(ps, p, t), i)
  {
    var qs := ExitTable(ps, p, t);
    var c :| IsChild(ps, c, i);
    ExitSlot(ps, p, t, c);
    assert IsChild(qs, c, i);
    forall d: nat ensures !ZombieChild(qs, d, i) {
      if d < NPROC && d != p { ExitSlot(ps, p, t, d); }
      assert !ZombieChild(ps, d, i) && (i == INIT ==> !ZombieChild(ps, d, p));
    }
  }

  lemma ExitWait(s: State, p: nat, i: nat)
    requires Inv(s) && Enabled(s, Exit(p)) && i < NPROC
    ensures WaitOk(ExitTable(s.procs, p, s.ticks), i)
  {
    assert SlotOk(s, p) && SlotOk(s, i);
    if i != p {
      ExitSlot(s.procs, p, s.ticks, i);
      if ExitTable(s.procs, p, s.ticks)[i].state == SLEEPING && s.procs[i].chan.Of? {
        ExitFamily(s.procs, p, s.ticks, i);
      }
    }
  }

  lemma ExitTree(s: State, p: nat, i: nat)
    requires Inv(s) && Enabled(s, Exit(p)) && i < NPROC
    ensures ParentOk(ExitTable(s.procs, p, s.ticks), i)
  {
    var ps, qs := s.procs, ExitTable(s.procs, p, s.ticks);
    assert SlotOk(s, p) && SlotOk(s, i) && (i != INIT ==> Apart(ps, i, INIT));
    ExitSlot(ps, p, s.ticks, INIT);
    if i != p { ExitSlot(ps, p, s.ticks, i); }
    if qs[i].parent.Some? && qs[i].parent.value != p { ExitSlot(ps, p, s.ticks, qs[i].parent.value); }
  }

  lemma ExitFork(s: State, p: nat, i: nat)
    requires Inv(s) && Enabled(s, Exit(p)) && i < NPROC
    ensures ForkOk(ExitTable(s.procs, p, s.ticks), i)
  {
    var ps, qs := s.procs, ExitTable(s.procs, p, s.ticks);
    assert SlotOk(s, p) && SlotOk(s, i);
    if i != p {
      ExitSlot(ps, p, s.ticks, i);
      if ps[i].control.Forking? && ps[i].control.np != p { ExitSlot(ps, p, s.ticks, ps[i].control.np); }
      if ps[i].parent.Some? && ps[i].parent.value != p { ExitSlot(ps, p, s.ticks, ps[i].parent.value); }
    }
  }

  lemma ExitSlotOk(s: State, p: nat, i: nat)
    requires Inv(s) && Enabled(s, Exit(p)) && i < NPROC
    ensures SlotOk(Next(s, Exit(p)), i)
  {
    assert SlotOk(s, i);
    ExitWait(s, p, i);
    ExitTree(s, p, i);
    ExitFork(s, p, i);
    if i != p {
      WokenAccount(s.procs[i], s.procs[i].chan, s.ticks);
      ExitSlot(s.procs, p, s.ticks, i);
    }
  }

  lemma ExitApart(s: State, p: nat, i: nat, j: nat)
    requires Inv(s) && Enabled(s, Exit(p)) && i < NPROC && j < NPROC && i != j
    ensures Apart(Next(s, Exit(p)).procs, i, j)
  {
    assert Apart(s.procs, i, j);
    if i != p { ExitSlot(s.procs, p, s.ticks, i); }
    if j != p { ExitSlot(s.procs, p, s.ticks, j); }
  }

  lemma ExitInv(s: State, p: nat)
    requires Inv(s) && Enabled(s, Exit(p))
    ensures Inv(Next(s, Exit(p)))
  {
    var t := Next(s, Exit(p));
    forall i | 0 <= i < NPROC ensures SlotOk(t, i) {
      ExitSlotOk(s, p, i);
    }
    forall i, j | 0 <= i < NPROC && 0 <= j < NPROC && i != j ensures Apart(t.procs, i, j) {
      ExitApart(s, p, i, j);
    }
    ExitSlot(s.procs, p, s.ticks, INIT);
  }

  lemma ReapSlot(s: State, p: nat, c: nat, two: bool, i: nat)
    requires Inv(s) && Enabled(s, Reap(p, c, two)) && i < NPROC
    ensures SlotOk(Next(s, Reap(p, c, two)), i)
  {
    var t := Next(s, Reap(p, c, two));
    assert SlotOk(s, p) && SlotOk(s, c);
    assert SlotOk(s, i) && (i != p ==> Apart(s.procs, i, p));
    WaitKept(s.procs, t.procs, i);
  }

  lemma ReapInv(s: State, p: nat, c: nat, two: bool)
    requires Inv(s) && Enabled(s, Reap(p, c, two))
    ensures Inv(Next(s, Reap(p, c, two)))
  {
    var t := Next(s, Reap(p, c, two));
    assert SlotOk(s, p) && SlotOk(s, c) && SlotOk(s, INIT);
    forall i | 0 <= i < NPROC ensures SlotOk(t, i) {
      ReapSlot(s, p, c, two, i);
    }
    forall i, j | 0 <= i < NPROC && 0 <= j < NPROC && i != j ensures Apart(t.procs, i, j) {
      assert Apart(s.procs, i, j);
    }
  }

  // ---------- whole runs ----------

  lemma StepInv(s: State, e: Event)
    requires Inv(s) && Enabled(s, e)
    ensures Inv(Next(s, e))
  {
    match e
    case Tick => TickInv(s);
    case Schedule(p) => ScheduleInv(s, p);
    case Yield(p) => YieldInv(s, p);
    case Sleep(p, id) => SleepInv(s, p, id);
    case Wakeup(id) => WakeupInv(s, id);
    case Kill(p) => KillInv(s, p);
    case Fork(p, np) => ForkInv(s, p, np);
    case ForkFail(p) => ForkFailInv(s, p);
    case ForkName(p) => ForkNameInv(s, p);
    case ForkDone(p) => ForkDoneInv(s, p);
    case Exit(p) => ExitInv(s, p);
    case Reap(p, c, two) => ReapInv(s, p, c, two);
    case NoChild(p) => NoChildInv(s, p);
    case WaitSleep(p) => WaitSleepInv(s, p);
  }

  /** The run of these events from boot ends in s. */
  ghost predicate Reached(events: seq<Event>, s: State) {
    if events == [] then s == Boot()
    else
      var last := events[|events| - 1];
      exists p :: Reached(events[..|events| - 1], p) && Enabled(p, last) && s == Next(p, last)
  }

  lemma {:induction false} ReachedInv(events: seq<Event>, s: State)
    requires Reached(events, s)
    ensures Inv(s)
    decreases |events|
  {
    if events == [] {
      BootInv();
    } else {
      var front, last := events[..|events| - 1], events[|events| - 1];
      var p :| Reached(front, p) && Enabled(p, last) && s == Next(p, last);
      ReachedInv(front, p);
      StepInv(p, last);
    }
  }

  /** In every run, the times that wait2 returns for a child are the ticks it spent waiting for a CPU and on one. */
  lemma {:induction false} LazyAccounting(events: seq<Event>, s: State, p: nat, c: nat)
    requires Reached(events, s) && Enabled(s, Reap(p, c, true))
    ensures s.procs[c].wtime == s.procs[c].waited % WORD_LIMIT && s.procs[c].rutime == s.procs[c].ran % WORD_LIMIT
  {
    ReachedInv(events, s);
    assert SlotOk(s, c);
  }

  /** In every run, init is alive and every process has a parent that is alive and older than itself. */
  lemma {:induction false} ProcessTree(events: seq<Event>, s: State, i: nat)
    requires Reached(events, s) && i < NPROC
    ensures Alive(s.procs[INIT])
    ensures s.procs[i].parent.Some? ==>
              var q := s.procs[i].parent.value; q < NPROC && Alive(s.procs[q]) && s.procs[q].serial < s.procs[i].serial
    ensures i != INIT && (Alive(s.procs[i]) || s.procs[i].state == ZOMBIE) ==> s.procs[i].parent.Some?
  {
    ReachedInv(events, s);
    assert SlotOk(s, i);
  }

  /** The pids of p and q clash. */
  predicate Clash(p: Proc, q: Proc) {
    (p.serial - q.serial) % WORD_LIMIT == 0
  }

  /** In every run two processes have the same pid exactly if their serial numbers, which differ, differ by a multiple
      of 2^32; so pids differ and are not 0 as long as there have been fewer than 2^32 processes. */
  lemma {:induction false} DistinctPids(events: seq<Event>, s: State, i: nat, j: nat)
    requires Reached(events, s) && i < NPROC && j < NPROC && i != j
    requires s.procs[i].state != UNUSED && s.procs[j].state != UNUSED
    ensures s.procs[i].serial != s.procs[j].serial
    ensures s.procs[i].pid == s.procs[j].pid <==> Clash(s.procs[i], s.procs[j])
    ensures s.born <= WORD_LIMIT ==> s.procs[i].pid != s.procs[j].pid && s.procs[i].pid > 0
  {
    ReachedInv(events, s);
    assert SlotOk(s, i) && SlotOk(s, j) && Apart(s.procs, i, j);
    PidsOf(s.procs[i], s.procs[j], s.born);
  }

  lemma PidsOf(p: Proc, q: Proc, born: nat)
    requires Numbered(p, born) && Numbered(q, born) && p.state != UNUSED && q.state != UNUSED && p.serial != q.serial
    ensures p.pid == q.pid <==> Clash(p, q)
    ensures born <= WORD_LIMIT ==> p.pid != q.pid && p.pid > 0
  {
    SameRest(p.serial, q.serial);
    SmallRest(p.serial, born);
    SmallRest(q.serial, born);
  }

  lemma SmallRest(a: nat, b: nat)
    requires a < b
    ensures b <= WORD_LIMIT ==> a % WORD_LIMIT == a
  {}

  lemma SameRest(a: nat, b: nat)
    ensures a % WORD_LIMIT == b % WORD_LIMIT <==> (a - b) % WORD_LIMIT == 0
  {
    Shift(a % WORD_LIMIT - b % WORD_LIMIT, a / WORD_LIMIT - b / WORD_LIMIT);
  }

  /** The events lead from s to t. */
  ghost predicate Leads(s: State, events: seq<Event>, t: State)
    decreases |events|
  {
    if events == [] then s == t else Enabled(s, events[0]) && Leads(Next(s, events[0]), events[1..], t)
  }

  lemma ReachedStep(before: seq<Event>, s: State, e: Event)
    requires Reached(before, s) && Enabled(s, e)
    ensures Reached(before + [e], Next(s, e))
  {
    var events, t := before + [e], Next(s, e);
    assert events[..|events| - 1] == before && events[|events| - 1] == e;
    assert Reached(events[..|events| - 1], s) && Enabled(s, events[|events| - 1]);
  }

  lemma {:induction false} LeadsReached(before: seq<Event>, s: State, after: seq<Event>, t: State)
    requires Reached(before, s) && Leads(s, after, t)
    ensures Reached(before + after, t)
    decreases |after|
  {
    if after == [] {
      assert before + after == before;
    } else {
      ReachedStep(before, s, after[0]);
      LeadsReached(before + [after[0]], Next(s, after[0]), after[1..], t);
      assert before + [after[0]] + after[1..] == before + after;
    }
  }

  /** The slot is collected by a wait. */
  predicate Collects(e: Event, i: nat) {
    e.Reap? && e.c == i
  }

  /** One step marks a slot as killed if it is a kill of it, unmarks it if it is the wait that collects it, and leaves
      the mark alone otherwise. */
  lemma KillMark(s: State, e: Event, i: nat)
    requires Enabled(s, e) && i < NPROC
    ensures Next(s, e).procs[i].killed == (e == Kill(i) || (s.procs[i].killed && !Collects(e, i)))
  {
    if e.Exit? && e.p != i {
      ExitSlot(s.procs, e.p, s.ticks, i);
    }
  }

  /** As long as the slot is not collected, it is marked exactly if it was, or if there was a kill of it. */
  lemma {:induction false} MarkStays(s: State, events: seq<Event>, t: State, i: nat)
    requires Leads(s, events, t) && i < NPROC && forall e | e in events :: !Collects(e, i)
    ensures t.procs[i].killed <==> s.procs[i].killed || Kill(i) in events
    decreases |events|
  {
    if events == [] {
    } else {
      KillMark(s, events[0], i);
      assert events == [events[0]] + events[1..];
      MarkStays(Next(s, events[0]), events[1..], t, i);
    }
  }

  /** In every run, a process that has been killed stays so until a wait collects it, and all that time it is not asleep
      in wait. */
  lemma {:induction false} KilledForGood(before: seq<Event>, s: State, after: seq<Event>, t: State, i: nat)
    requires Reached(before, s) && Leads(s, after, t) && i < NPROC && Kill(i) in after
    requires forall e | e in after :: !Collects(e, i)
    ensures t.procs[i].killed && !(t.procs[i].state == SLEEPING && t.procs[i].control == Waiting)
  {
    MarkStays(s, after, t, i);
    LeadsReached(before, s, after, t);
    ReachedInv(before + after, t);
    assert SlotOk(t, i);
  }

  /** No exit is missed, in any run: whoever is asleep in wait has a child, none that has exited, and has not been
      killed. */
  lemma {:induction false} NoMissedExit(events: seq<Event>, s: State, i: nat)
    requires Reached(events, s) && i < NPROC && s.procs[i].state == SLEEPING && s.procs[i].control == Waiting
    ensures HasChild(s.procs, i) && !HasZombie(s.procs, i) && !s.procs[i].killed && s.procs[i].chan == Of(i)
  {
    ReachedInv(events, s);
    assert SlotOk(s, i);
  }
}
