/** The functions of proc.c, from acquire of ptable.lock to its release or to sched, each proved to be one step. */
module ProcTable {
  import opened Options
  import opened ProcStates
  import opened Procs
  import opened Words

  datatype WaitResult = Exited(pid: nat, wtime: nat, rutime: nat) | NoneLeft | Asleep

  /** A slot of exit's loop once it has been passed. */
  function Passed(c: Proc, p: nat, told: bool, t: nat): (d: Proc) {
    var d := Adopted(c, p);
    if told then Woken(d, Of(INIT), t) else d
  }

  /** A slot of exit's loop that is still ahead. */
  function Ahead(c: Proc, told: bool, t: nat): (d: Proc) {
    if told then Woken(c, Of(INIT), t) else c
  }

  class Ptable {
    const proc: array<Proc>
    var nextpid: Uint
    var ticks: nat
    var born: nat

    ghost predicate Valid() {
      proc.Length == NPROC
    }

    ghost function Abs(): (s: State)
      requires Valid()
      reads this, proc
    {
      State(proc[..], nextpid, ticks, born)
    }

    /** userinit */
    constructor ()
      ensures Valid() && fresh(proc) && Abs() == Boot()
    {
      proc := new Proc[NPROC](_ => Nobody());
      nextpid, ticks, born := 2, 0, 2;
      new;
      proc[INIT] := Nobody().(state := RUNNABLE, pid := 1, serial := 1);
    }

    method Wakeup1(chan: Chan)
      requires Valid()
      modifies proc
      ensures proc[..] == WakeAll(old(proc[..]), chan, ticks)
      ensures forall i | 0 <= i < NPROC ::
                var q := old(proc[i]);
                proc[i] == (if q.state == SLEEPING && q.chan == chan then q.(state := RUNNABLE, snapticks := ticks)
                            else q)
    {
      for i := 0 to NPROC
        invariant forall k | 0 <= k < NPROC ::
                    proc[k] == if k < i then Woken(old(proc[k]), chan, ticks) else old(proc[k])
      {
        if proc[i].state == SLEEPING && proc[i].chan == chan {
          proc[i] := proc[i].(state := RUNNABLE, snapticks := ticks);
        }
      }
    }

    /** allocproc, called by process p: the first free slot becomes an embryo, unless there is none. */
    method Allocproc(p: nat) returns (np: Option<nat>)
      requires Valid() && On(proc[..], p, Plain)
      modifies this, proc
      ensures np.None? ==> Abs() == old(Abs()) && forall i | 0 <= i < NPROC :: proc[i].state != UNUSED
      ensures np.Some? ==> Enabled(old(Abs()), Fork(p, np.value)) && Abs() == Next(old(Abs()), Fork(p, np.value))
      ensures np.Some? ==>
                && np.value < NPROC && old(proc[np.value].state) == UNUSED
                && (forall i | 0 <= i < np.value :: old(proc[i].state) != UNUSED)
                && proc[np.value].state == EMBRYO && proc[np.value].pid == old(nextpid)
                && proc[np.value].wtime == proc[np.value].rutime == 0 && proc[np.value].snapticks == ticks
                && (forall i | 0 <= i < NPROC && i != p && i != np.value :: proc[i] == old(proc[i]))
    {
      var i := 0;
      while i < NPROC && proc[i].state != UNUSED
        invariant 0 <= i <= NPROC && forall k | 0 <= k < i :: proc[k].state != UNUSED
      {
        i := i + 1;
      }
      if i == NPROC { return None; }
      proc[i] := proc[i].(state := EMBRYO, pid := nextpid);
      nextpid := Plus(nextpid, 1);
      proc[i] := proc[i].(wtime := 0, rutime := 0, snapticks := ticks, waited := 0, ran := 0, serial := born);
      born := born + 1;
      proc[p] := proc[p].(control := Forking(i, false));
      return Some(i);
    }

    /** fork of process p without the memory for child np: the slot is free again. */
    method DropChild(p: nat, np: nat)
      requires Valid() && np < NPROC && proc[np].state == EMBRYO
      requires On(proc[..], p, Forking(np, false))
      modifies proc
      ensures Abs() == Next(old(Abs()), ForkFail(p))
      ensures proc[np].state == UNUSED && proc[p].control == Plain
      ensures forall i | 0 <= i < NPROC && i != p && i != np :: proc[i] == old(proc[i])
    {
      proc[np] := proc[np].(state := UNUSED);
      proc[p] := proc[p].(control := Plain);
    }

    /** fork of process p: the child gets its parent, without the lock. */
    method SetParent(p: nat, np: nat)
      requires Valid() && np < NPROC && proc[np].state == EMBRYO
      requires On(proc[..], p, Forking(np, false))
      modifies proc
      ensures Abs() == Next(old(Abs()), ForkName(p))
      ensures proc[np] == old(proc[np]).(parent := Some(p))
      ensures forall i | 0 <= i < NPROC && i != p && i != np :: proc[i] == old(proc[i])
    {
      proc[np] := proc[np].(parent := Some(p));
      proc[p] := proc[p].(control := Forking(np, true));
    }

    /** The end of fork in process p: the child may run, and its pid is returned. */
    method StartChild(p: nat, np: nat) returns (pid: nat)
      requires Valid() && np < NPROC && proc[np].state == EMBRYO
      requires On(proc[..], p, Forking(np, true))
      modifies proc
      ensures Abs() == Next(old(Abs()), ForkDone(p)) && pid == old(proc[np].pid)
      ensures proc[np] == old(proc[np]).(state := RUNNABLE) && proc[p].control == Plain
      ensures forall i | 0 <= i < NPROC && i != p && i != np :: proc[i] == old(proc[i])
    {
      pid := proc[np].pid;
      proc[np] := proc[np].(state := RUNNABLE);
      proc[p] := proc[p].(control := Plain);
    }

    /** The loop of exit: the children of p pass to init, who is woken if one of them has exited. */
    method PassChildren(p: nat)
      requires Valid()
      modifies proc
      ensures proc[..] == if HasZombie(old(proc[..]), p) then WakeAll(AdoptAll(old(proc[..]), p), Of(INIT), ticks)
                          else AdoptAll(old(proc[..]), p)
    {
      ghost var woken: Table := proc[..];
      ghost var told := false;
      for i := 0 to NPROC
        invariant told <==> exists c: nat :: c < i && ZombieChild(woken, c, p)
        invariant forall k | 0 <= k < NPROC ::
                    proc[k] == if k < i then Passed(woken[k], p, told, ticks) else Ahead(woken[k], told, ticks)
      {
        if proc[i].parent == Some(p) {
          proc[i] := proc[i].(parent := Some(INIT));
          if proc[i].state == ZOMBIE {
            assert ZombieChild(woken, i, p);
            Wakeup1(Of(INIT));
            told := true;
          }
        }
      }
      assert told == HasZombie(woken, p);
    }

    /** exit of process p: its parent is woken, its children pass to init, who is woken if one of them has exited. */
    method Exit(p: nat)
      requires Valid() && Enabled(Abs(), Procs.Exit(p))
      modifies proc
      ensures Abs() == Next(old(Abs()), Procs.Exit(p))
      ensures proc[p].state == ZOMBIE && proc[p].pid == old(proc[p].pid) && proc[p].killed == old(proc[p].killed)
      ensures proc[p].rutime == Plus(old(proc[p].rutime), Minus(ticks, old(proc[p].snapticks)))
      ensures forall i | 0 <= i < NPROC && i != p ::
                var q, wakes := old(proc[i]), ExitWakes(old(proc[..]), p, old(proc[i]));
                proc[i] == q.(parent := if q.parent == Some(p) then Some(INIT) else q.parent,
                              state := if wakes then RUNNABLE else q.state,
                              snapticks := if wakes then ticks else q.snapticks)
    {
      ghost var ps: Table := proc[..];
      forall i | 0 <= i < NPROC && i != p
        ensures ExitTable(ps, p, ticks)[i]
                == ps[i].(parent := if ps[i].parent == Some(p) then Some(INIT) else ps[i].parent,
                          state := if ExitWakes(ps, p, ps[i]) then RUNNABLE else ps[i].state,
                          snapticks := if ExitWakes(ps, p, ps[i]) then ticks else ps[i].snapticks)
      {
        ExitSlot(ps, p, ticks, i);
      }
      Wakeup1(ParentChan(proc[p]));
      PassChildren(p);
      proc[p] := proc[p].(state := ZOMBIE);
      proc[p] := proc[p].(rutime := Plus(proc[p].rutime, Minus(ticks, proc[p].snapticks)));
    }

    /** The scan of wait and wait2 in process p: the first child that has exited, if any, and whether there are
        children. */
    method ScanChildren(p: nat) returns (zombie: Option<nat>, havekids: bool)
      requires Valid()
      ensures zombie.Some? ==> ZombieChild(proc[..], zombie.value, p)
      ensures zombie.Some? ==> forall c: nat | c < zombie.value :: !ZombieChild(proc[..], c, p)
      ensures zombie.None? ==> !HasZombie(proc[..], p) && havekids == HasChild(proc[..], p)
    {
      ghost var ps: Table := proc[..];
      havekids := false;
      for i := 0 to NPROC
        invariant forall c: nat | c < i :: !ZombieChild(ps, c, p)
        invariant havekids <==> exists c: nat :: c < i && IsChild(ps, c, p)
      {
        if proc[i].parent == Some(p) {
          assert IsChild(ps, i, p);
          havekids := true;
          if proc[i].state == ZOMBIE {
            return Some(i), true;
          }
        }
      }
      return None, havekids;
    }

    /** Collecting the zombie child c. */
    method Collect(p: nat, c: nat, two: bool) returns (r: WaitResult)
      requires Valid() && Enabled(Abs(), Reap(p, c, two))
      modifies proc
      ensures Abs() == Next(old(Abs()), Reap(p, c, two))
      ensures r == Exited(old(proc[c].pid), old(proc[c].wtime), old(proc[c].rutime))
      ensures proc[c].state == UNUSED && proc[c].pid == 0 && proc[c].parent == None && !proc[c].killed
      ensures two ==> proc[c].wtime == proc[c].rutime == 0
      ensures forall i | 0 <= i < NPROC && i != c :: proc[i] == old(proc[i]).(control := proc[i].control)
    {
      r := Exited(proc[c].pid, proc[c].wtime, proc[c].rutime);
      proc[p] := proc[p].(control := Plain);
      proc[c] := proc[c].(state := UNUSED, pid := 0, parent := None, killed := false);
      if two { proc[c] := proc[c].(wtime := 0, rutime := 0); }
    }

    /** One pass of the loop of wait and wait2 in process p: the first exited child is collected; or there is nothing to
        wait for; or p goes to sleep on itself. */
    method Wait(p: nat, two: bool) returns (r: WaitResult)
      requires Valid() && InWait(proc[..], p)
      modifies proc
      ensures r.Exited? <==> old(HasZombie(proc[..], p))
      ensures r.Asleep? <==> old(!HasZombie(proc[..], p) && HasChild(proc[..], p) && !proc[p].killed)
      ensures r.Asleep? ==> Enabled(old(Abs()), WaitSleep(p)) && Abs() == Next(old(Abs()), WaitSleep(p))
      ensures r.Asleep? ==>
                && proc[p].state == SLEEPING && proc[p].chan == Of(p) && !proc[p].killed
                && proc[p].rutime == Plus(old(proc[p].rutime), Minus(ticks, old(proc[p].snapticks)))
                && forall i | 0 <= i < NPROC && i != p :: proc[i] == old(proc[i])
      ensures r.NoneLeft? ==> Enabled(old(Abs()), NoChild(p)) && Abs() == Next(old(Abs()), NoChild(p))
      ensures r.Exited? ==> exists c: nat ::
                && Enabled(old(Abs()), Reap(p, c, two)) && Abs() == Next(old(Abs()), Reap(p, c, two))
                && r == Exited(old(proc[c].pid), old(proc[c].wtime), old(proc[c].rutime))
    {
      var zombie, havekids := ScanChildren(p);
      if zombie.Some? {
        r := Collect(p, zombie.value, two);
        return;
      }
      if !havekids || proc[p].killed {
        proc[p] := proc[p].(control := Plain);
        return NoneLeft;
      }
      proc[p] := proc[p].(chan := Of(p), state := SLEEPING, control := Waiting,
                          rutime := Plus(proc[p].rutime, Minus(ticks, proc[p].snapticks)));
      return Asleep;
    }

    /** kill: the first slot with this pid is marked, and woken if it sleeps; no other slot changes. It fails exactly if
        no slot has the pid. */
    method Kill(pid: nat) returns (r: int, ghost i: nat)
      requires Valid()
      modifies proc
      ensures r == if exists k :: 0 <= k < NPROC && old(proc[k].pid) == pid then 0 else -1
      ensures r == -1 ==> Abs() == old(Abs())
      ensures r == 0 ==> Enabled(old(Abs()), Procs.Kill(i)) && Abs() == Next(old(Abs()), Procs.Kill(i))
      ensures r == 0 ==>
                && i < NPROC && old(proc[i].pid) == pid && (forall k | 0 <= k < i :: old(proc[k].pid) != pid)
                && proc[i].killed
                && (if old(proc[i].state) == SLEEPING then proc[i].state == RUNNABLE && proc[i].snapticks == ticks
                    else proc[i].state == old(proc[i].state) && proc[i].snapticks == old(proc[i].snapticks))
                && (forall k | 0 <= k < NPROC && k != i :: proc[k] == old(proc[k]))
    {
      i := 0;
      for j := 0 to NPROC
        invariant proc[..] == old(proc[..]) && forall k | 0 <= k < j :: proc[k].pid != pid
      {
        if proc[j].pid == pid {
          proc[j] := proc[j].(killed := true);
          if proc[j].state == SLEEPING {
            proc[j] := proc[j].(state := RUNNABLE, snapticks := ticks);
          }
          return 0, j;
        }
      }
      r := -1;
    }

    /** The part of scheduler that puts process p on the CPU. */
    method Dispatch(p: nat)
      requires Valid() && Enabled(Abs(), Schedule(p))
      modifies proc
      ensures Abs() == Next(old(Abs()), Schedule(p))
      ensures proc[p].state == RUNNING && proc[p].chan == Null && proc[p].snapticks == ticks
      ensures proc[p].wtime == Plus(old(proc[p].wtime), Minus(ticks, old(proc[p].snapticks)))
      ensures forall i | 0 <= i < NPROC && i != p :: proc[i] == old(proc[i])
    {
      proc[p] := proc[p].(state := RUNNING, wtime := Plus(proc[p].wtime, Minus(ticks, proc[p].snapticks)));
      proc[p] := proc[p].(snapticks := ticks);
      proc[p] := proc[p].(chan := Null);
    }

    method Yield(p: nat)
      requires Valid() && Enabled(Abs(), Procs.Yield(p))
      modifies proc
      ensures Abs() == Next(old(Abs()), Procs.Yield(p))
      ensures proc[p].state == RUNNABLE && proc[p].snapticks == ticks
      ensures proc[p].rutime == Plus(old(proc[p].rutime), Minus(ticks, old(proc[p].snapticks)))
      ensures forall i | 0 <= i < NPROC && i != p :: proc[i] == old(proc[i])
    {
      proc[p] := proc[p].(state := RUNNABLE);
      proc[p] := proc[p].(rutime := Plus(proc[p].rutime, Minus(ticks, proc[p].snapticks)));
      proc[p] := proc[p].(snapticks := ticks);
    }

    /** sleep, on a channel other than a process. */
    method SleepOn(p: nat, id: nat)
      requires Valid() && Enabled(Abs(), Sleep(p, id))
      modifies proc
      ensures Abs() == Next(old(Abs()), Sleep(p, id))
      ensures proc[p].state == SLEEPING && proc[p].chan == Elsewhere(id)
      ensures proc[p].rutime == Plus(old(proc[p].rutime), Minus(ticks, old(proc[p].snapticks)))
      ensures forall i | 0 <= i < NPROC && i != p :: proc[i] == old(proc[i])
    {
      proc[p] := proc[p].(chan := Elsewhere(id));
      proc[p] := proc[p].(state := SLEEPING);
      proc[p] := proc[p].(rutime := Plus(proc[p].rutime, Minus(ticks, proc[p].snapticks)));
    }
  }
}
