/** The round-robin scheduler with the "let's get even" rule: one CPU, charged at every clock tick. An odd pid gives the
    CPU up at every tick, an even one when its running time has come to an even number. */
module Sched {
  import opened ProcStates
  import opened Words

  /** wtime and rutime are 32-bit counters; both wrap around. */
  datatype Task = Task(state: ProcState, pid: nat, wtime: Uint, rutime: Uint)

  function Inc(c: Uint): (d: Uint) {
    (c + 1) % WORD_LIMIT
  }

  type Tasks = t: seq<Task> | |t| == NPROC witness seq(NPROC, _ => Task(UNUSED, 0, 0, 0))

  /** cursor is the scheduler's p: the slot it looks at, or whose process it has switched to. used counts the ticks
      charged to the present dispatch, and quota is what the process would be charged in all if it ran on. */
  datatype Cpu = Cpu(tasks: Tasks, cursor: nat, running: bool, used: nat, quota: nat)

  /** updateTable for one slot. */
  function Charged(t: Task): (u: Task) {
    match t.state
    case RUNNING => t.(rutime := Inc(t.rutime))
    case RUNNABLE => t.(wtime := Inc(t.wtime))
    case _ => t
  }

  function ChargeAll(ts: Tasks): (r: Tasks) {
    seq(NPROC, i requires 0 <= i < NPROC => Charged(ts[i]))
  }

  /** The rule of trap: does the running process yield? */
  predicate GivesUp(t: Task) {
    t.pid % 2 != 0 || (t.rutime % 2 == 0 && t.rutime != 0)
  }

  /** The ticks after which the process gives up, counted from its present running time: an even pid passes over 0. */
  function Quota(t: Task): (n: nat)
    ensures 1 <= n <= 4
    ensures n <= 2 <==> t.pid % 2 != 0 || t.rutime < WORD_LIMIT - 2
  {
    if t.pid % 2 != 0 then 1
    else if t.rutime == WORD_LIMIT - 2 then 4
    else if t.rutime == WORD_LIMIT - 1 then 3
    else if t.rutime % 2 == 0 then 2
    else 1
  }

  /** A tick either uses up the last of it, and then the rule says to yield, or leaves one less. */
  lemma QuotaCounts(t: Task)
    requires t.state == RUNNING
    ensures GivesUp(Charged(t)) <==> Quota(t) == 1
    ensures Quota(t) > 1 ==> Quota(Charged(t)) == Quota(t) - 1
  {}

  /** p++ of the scheduler's loop, which starts over after the last slot. */
  function Succ(c: nat): (d: nat) {
    if c + 1 < NPROC then c + 1 else 0
  }

  datatype Event =
    | Examine                            // the scheduler looks at a slot and dispatches it if it is runnable
    | Timer(killed: bool)                // a tick; a killed process exits on its way out
    | Leave(to: ProcState)               // the running process sleeps, exits or yields
    | Alloc(i: nat, pid: nat)            // allocproc: both times start at 0
    | Start(i: nat)                      // fork has made its child, or wakeup or kill has woken a sleeper
    | Free(i: nat, pid: nat)             // fork has failed, or wait has collected an exited process

  predicate Enabled(s: Cpu, e: Event) {
    match e
    case Examine => !s.running
    case Timer(killed) => killed ==> s.running
    case Leave(to) => s.running && (to == SLEEPING || to == ZOMBIE || to == RUNNABLE)
    case Alloc(i, pid) => i < NPROC && s.tasks[i].state == UNUSED
    case Start(i) => i < NPROC && (s.tasks[i].state == EMBRYO || s.tasks[i].state == SLEEPING)
    case Free(i, pid) => i < NPROC && (s.tasks[i].state == EMBRYO || s.tasks[i].state == ZOMBIE)
  }

  /** The running process goes to another state, and the scheduler goes on to the next slot. */
  function Switch(s: Cpu, to: ProcState): (t: Cpu)
    requires s.cursor < NPROC
  {
    Cpu(s.tasks[s.cursor := s.tasks[s.cursor].(state := to)], Succ(s.cursor), false, 0, 0)
  }

  function Next(s: Cpu, e: Event): (t: Cpu)
    requires s.cursor < NPROC && Enabled(s, e)
  {
    match e
    case Examine =>
      if s.tasks[s.cursor].state == RUNNABLE then
        Cpu(s.tasks[s.cursor := s.tasks[s.cursor].(state := RUNNING)], s.cursor, true, 0, Quota(s.tasks[s.cursor]))
      else s.(cursor := Succ(s.cursor))
    case Timer(killed) =>
      var c := s.(tasks := ChargeAll(s.tasks), used := if s.running then s.used + 1 else 0);
      if killed then Switch(c, ZOMBIE)
      else if s.running && GivesUp(c.tasks[c.cursor]) then Switch(c, RUNNABLE)
      else c
    case Leave(to) => Switch(s, to)
    case Alloc(i, pid) => s.(tasks := s.tasks[i := Task(EMBRYO, pid, 0, 0)])
    case Start(i) => s.(tasks := s.tasks[i := s.tasks[i].(state := RUNNABLE)])
    case Free(i, pid) => s.(tasks := s.tasks[i := s.tasks[i].(state := UNUSED, pid := pid)])
  }

  // ---------- invariant ----------

  /** Exactly the process at the cursor is running, if any is, and what it has been charged and what it can still be
      charged make up its quota. */
  predicate Inv(s: Cpu) {
    && s.cursor < NPROC
    && (forall i | 0 <= i < NPROC :: s.tasks[i].state == RUNNING <==> s.running && i == s.cursor)
    && if s.running then s.used + Quota(s.tasks[s.cursor]) == s.quota <= 4 else s.used == s.quota == 0
  }

  lemma StepInv(s: Cpu, e: Event)
    requires Inv(s) && Enabled(s, e)
    ensures Inv(Next(s, e))
  {
    if e.Timer? && s.running {
      QuotaCounts(s.tasks[s.cursor]);
    }
  }

  /** The ticks that an event charges to processes as running time. */
  function Charge(s: Cpu, e: Event): (n: nat) {
    if e.Timer? && s.running then 1 else 0
  }

  /** Each tick is charged to one process at most, and it is the one on the CPU. */
  lemma ChargedOnce(s: Cpu, killed: bool, i: nat)
    requires Inv(s) && Enabled(s, Timer(killed)) && i < NPROC
    ensures var r := s.tasks[i].rutime;
            Next(s, Timer(killed)).tasks[i].rutime == if s.running && i == s.cursor then Inc(r) else r
  {}

  // ---------- how long a runnable process waits ----------

  /** Slots from c round to t. */
  function Distance(c: nat, t: nat): (d: nat)
    requires c < NPROC && t < NPROC
    ensures d < NPROC && (d == 0 <==> c == t)
  {
    if c <= t then t - c else t + NPROC - c
  }

  /** The ticks that the present dispatch can still be charged. */
  function Left(s: Cpu): (n: nat)
    requires s.cursor < NPROC
  {
    if s.running then Quota(s.tasks[s.cursor]) else 0
  }

  /** The most that others can be charged before t is dispatched, apart from dispatches still to begin that pass 0. */
  function Ahead(s: Cpu, t: nat): (n: int)
    requires s.cursor < NPROC && t < NPROC
  {
    Left(s) + 2 * Dispatches(s, t)
  }

  /** The most dispatches of others still to begin before that of t. */
  function Dispatches(s: Cpu, t: nat): (n: int)
    requires s.cursor < NPROC && t < NPROC
  {
    Distance(s.cursor, t) - if s.running then 1 else 0
  }

  predicate Waits(s: Cpu, t: nat) {
    t < NPROC && s.tasks[t].state == RUNNABLE
  }

  function Begun(s: Cpu, e: Event): (n: nat)
    requires s.cursor < NPROC
  {
    if e.Examine? && s.tasks[s.cursor].state == RUNNABLE then 1 else 0
  }

  /** What a dispatch that passes 0 is charged beyond two ticks. */
  function Extra(quota: nat): (n: nat) {
    if quota > 2 then quota - 2 else 0
  }

  function ExtraBegun(s: Cpu, e: Event): (n: nat)
    requires s.cursor < NPROC
    ensures n <= 2 * Begun(s, e)
  {
    if Begun(s, e) == 1 then Extra(Quota(s.tasks[s.cursor])) else 0
  }

  /** No event lets others have more, but for a dispatch that passes 0; and each charge or dispatch uses some of it. */
  lemma StepAhead(s: Cpu, e: Event, t: nat)
    requires Inv(s) && Enabled(s, e) && Waits(s, t) && Waits(Next(s, e), t)
    ensures Ahead(Next(s, e), t) + Charge(s, e) <= Ahead(s, t) + ExtraBegun(s, e)
    ensures Dispatches(Next(s, e), t) + Begun(s, e) <= Dispatches(s, t)
  {
    if s.running {
      QuotaCounts(s.tasks[s.cursor]);
    }
  }

  // ---------- runs ----------

  /** The states that a run from s passes through. */
  ghost predicate Run(s: Cpu, events: seq<Event>, states: seq<Cpu>) {
    && |states| == |events| + 1 && states[0] == s
    && forall k | 0 <= k < |events| :: Step(states[k], events[k], states[k + 1])
  }

  predicate Step(s: Cpu, e: Event, t: Cpu) {
    s.cursor < NPROC && Enabled(s, e) && t == Next(s, e)
  }

  function Charges(events: seq<Event>, states: seq<Cpu>): (n: nat)
    requires |states| == |events| + 1
  {
    if events == [] then 0 else Charge(states[0], events[0]) + Charges(events[1..], states[1..])
  }

  function DispatchesBegun(events: seq<Event>, states: seq<Cpu>): (n: nat)
    requires |states| == |events| + 1
  {
    if events == [] then 0
    else
      (if states[0].cursor < NPROC then Begun(states[0], events[0]) else 0)
      + DispatchesBegun(events[1..], states[1..])
  }

  /** What the dispatches of the run that pass 0 are charged beyond two ticks each. */
  function Extras(events: seq<Event>, states: seq<Cpu>): (n: nat)
    requires |states| == |events| + 1
    ensures n <= 2 * DispatchesBegun(events, states)
  {
    if events == [] then 0
    else (if states[0].cursor < NPROC then ExtraBegun(states[0], events[0]) else 0) + Extras(events[1..], states[1..])
  }

  lemma RunTail(s: Cpu, events: seq<Event>, states: seq<Cpu>)
    requires Run(s, events, states) && |events| > 0
    ensures Step(s, events[0], states[1]) && Run(states[1], events[1..], states[1..])
  {
    assert Step(states[0], events[0], states[1]);
    forall k | 0 <= k < |events| - 1 ensures Step(states[1..][k], events[1..][k], states[1..][k + 1]) {
      assert Step(states[k + 1], events[k + 1], states[k + 2]);
    }
  }

  lemma {:induction false} RunInv(s: Cpu, events: seq<Event>, states: seq<Cpu>, k: nat)
    requires Inv(s) && Run(s, events, states) && k <= |events|
    ensures Inv(states[k])
  {
    if k == 0 {
    } else {
      RunInv(s, events, states, k - 1);
      assert Step(states[k - 1], events[k - 1], states[k]);
      StepInv(states[k - 1], events[k - 1]);
    }
  }

  /** In every run a dispatch is charged at most its quota, so never more than four ticks, and more than two only if it
      began with an even pid and a running time that is about to wrap; at the last tick of the quota the process
      yields, and not before. */
  lemma BoundedDispatch(s: Cpu, events: seq<Event>, states: seq<Cpu>, k: nat)
    requires Inv(s) && Run(s, events, states) && k < |events|
    ensures states[k].used + Charge(states[k], events[k]) <= states[k].quota <= 4
    ensures states[k].running && events[k] == Timer(false) ==>
              (states[k + 1].running <==> states[k].used + 1 < states[k].quota)
    ensures events[k] == Examine && states[k + 1].running ==>
              var t := states[k].tasks[states[k].cursor];
              states[k + 1].quota == Quota(t) && (Quota(t) <= 2 <==> t.pid % 2 != 0 || t.rutime < WORD_LIMIT - 2)
  {
    RunInv(s, events, states, k);
    assert Step(states[k], events[k], states[k + 1]);
    if states[k].running {
      QuotaCounts(states[k].tasks[states[k].cursor]);
    }
  }

  /** Every quota is used up by a process that nothing else takes off the CPU: that many ticks are charged to the
      dispatch, and it ends with the last of them. */
  lemma {:induction false} QuotaReached(s: Cpu) returns (events: seq<Event>, states: seq<Cpu>)
    requires Inv(s) && s.running
    ensures Run(s, events, states) && |events| == Left(s) && forall k | 0 <= k < |events| :: events[k] == Timer(false)
    ensures forall k | 0 <= k < |events| :: states[k].running && states[k].cursor == s.cursor
    ensures !states[|events|].running
    decreases Left(s)
  {
    var t := Next(s, Timer(false));
    QuotaCounts(s.tasks[s.cursor]);
    StepInv(s, Timer(false));
    assert Step(s, Timer(false), t);
    if Left(s) == 1 {
      events, states := [Timer(false)], [s, t];
    } else {
      var es, ss := QuotaReached(t);
      events, states := [Timer(false)] + es, [s] + ss;
      forall k | 0 <= k < |events| ensures Step(states[k], events[k], states[k + 1]) {
        if k > 0 { assert Step(ss[k - 1], es[k - 1], ss[k]); }
      }
    }
  }

  /** The longest dispatch: an even pid whose running time is 2^32 - 2 runs for four ticks, past 0, and yields at 2. */
  lemma FourTicks(s: Cpu) returns (events: seq<Event>, states: seq<Cpu>)
    requires Inv(s) && !s.running && s.tasks[s.cursor].state == RUNNABLE
    requires s.tasks[s.cursor].pid % 2 == 0 && s.tasks[s.cursor].rutime == WORD_LIMIT - 2
    ensures Run(Next(s, Examine), events, states) && events == seq(4, _ => Timer(false))
    ensures forall k | 0 <= k < 4 :: states[k].running && states[k].cursor == s.cursor
    ensures !states[4].running
  {
    StepInv(s, Examine);
    events, states := QuotaReached(Next(s, Examine));
  }

  lemma {:induction false} RunAhead(s: Cpu, events: seq<Event>, states: seq<Cpu>, t: nat)
    requires Inv(s) && Run(s, events, states) && t < NPROC && forall k | 0 <= k < |states| :: Waits(states[k], t)
    ensures Inv(states[|events|])
    ensures Ahead(states[|events|], t) + Charges(events, states) <= Ahead(s, t) + Extras(events, states)
    ensures Dispatches(states[|events|], t) + DispatchesBegun(events, states) <= Dispatches(s, t)
    decreases |events|
  {
    if events == [] {
    } else {
      RunTail(s, events, states);
      StepInv(s, events[0]);
      StepAhead(s, events[0], t);
      RunAhead(states[1], events[1..], states[1..], t);
    }
  }

  /** In every run in which process t stays runnable, at most NPROC - 1 other dispatches begin or go on. They are
      charged two ticks each at most, and up to two more if they pass 0: so at most 2 * (NPROC - 1) ticks if none
      does, and never more than 4 * (NPROC - 1). */
  lemma BoundedWait(s: Cpu, events: seq<Event>, states: seq<Cpu>, t: nat)
    requires Inv(s) && Run(s, events, states) && t < NPROC && forall k | 0 <= k < |states| :: Waits(states[k], t)
    ensures DispatchesBegun(events, states) + (if s.running then 1 else 0) <= NPROC - 1
    ensures Charges(events, states) <= 2 * (NPROC - 1) + Extra(s.quota) + Extras(events, states) <= 4 * (NPROC - 1)
  {
    RunAhead(s, events, states, t);
    var z := states[|events|];
    assert Waits(z, t);
    assert Ahead(z, t) >= 0 && Dispatches(z, t) >= 0;
    assert Left(s) <= s.quota;
  }

  // ---------- the times that wait2 returns ----------

  /** The event is a tick, and slot i is in the given state. */
  function TickIn(s: Cpu, e: Event, i: nat, state: ProcState): (n: nat)
    requires i < NPROC
  {
    if e.Timer? && s.tasks[i].state == state then 1 else 0
  }

  /** The ticks of a run at which slot i is in the given state. */
  function TicksIn(events: seq<Event>, states: seq<Cpu>, i: nat, state: ProcState): (n: nat)
    requires |states| == |events| + 1 && i < NPROC
  {
    if events == [] then 0
    else TickIn(states[0], events[0], i, state) + TicksIn(events[1..], states[1..], i, state)
  }

  /** The two times of a slot have grown by w and r. */
  predicate Grown(t: Task, u: Task, w: nat, r: nat) {
    u.wtime == (t.wtime + w) % WORD_LIMIT && u.rutime == (t.rutime + r) % WORD_LIMIT
  }

  lemma GrownTwice(t: Task, u: Task, v: Task, w: nat, r: nat, w': nat, r': nat)
    requires Grown(t, u, w, r) && Grown(u, v, w', r')
    ensures Grown(t, v, w + w', r + r')
  {
    SumWraps(t.wtime, w, w');
    SumWraps(t.rutime, r, r');
  }

  lemma SumWraps(a: nat, b: nat, c: nat)
    ensures ((a + b) % WORD_LIMIT + c) % WORD_LIMIT == (a + b + c) % WORD_LIMIT
  {}

  /** One event counts a tick for the slot's state before it, and nothing else. */
  lemma TimeStep(s: Cpu, e: Event, i: nat)
    requires Inv(s) && Enabled(s, e) && i < NPROC && !(e.Alloc? && e.i == i)
    ensures Grown(s.tasks[i], Next(s, e).tasks[i], TickIn(s, e, i, RUNNABLE), TickIn(s, e, i, RUNNING))
  {}

  /** In every run, the waiting time of a slot grows by the ticks at which it was runnable, and its running time by
      those at which it was running, as long as it is not given to a new process. */
  lemma {:induction false} TimesGrow(s: Cpu, events: seq<Event>, states: seq<Cpu>, i: nat)
    requires Inv(s) && Run(s, events, states) && i < NPROC && forall e | e in events :: !(e.Alloc? && e.i == i)
    ensures Grown(s.tasks[i], states[|events|].tasks[i], TicksIn(events, states, i, RUNNABLE),
                  TicksIn(events, states, i, RUNNING))
    decreases |events|
  {
    if events == [] {
    } else {
      RunTail(s, events, states);
      StepInv(s, events[0]);
      TimeStep(s, events[0], i);
      var es, ss := events[1..], states[1..];
      TimesGrow(states[1], es, ss, i);
      GrownTwice(s.tasks[i], states[1].tasks[i], ss[|es|].tasks[i], TickIn(s, events[0], i, RUNNABLE),
                 TickIn(s, events[0], i, RUNNING), TicksIn(es, ss, i, RUNNABLE), TicksIn(es, ss, i, RUNNING));
    }
  }

  /** So at any time after a process was allocated, its two times are the ticks that it has spent waiting for the CPU
      and on it. */
  lemma TimesCounted(s: Cpu, i: nat, pid: nat, events: seq<Event>, states: seq<Cpu>)
    requires Inv(s) && Enabled(s, Alloc(i, pid)) && Run(Next(s, Alloc(i, pid)), events, states)
    requires forall e | e in events :: !(e.Alloc? && e.i == i)
    ensures states[|events|].tasks[i].wtime == TicksIn(events, states, i, RUNNABLE) % WORD_LIMIT
    ensures states[|events|].tasks[i].rutime == TicksIn(events, states, i, RUNNING) % WORD_LIMIT
  {
    StepInv(s, Alloc(i, pid));
    TimesGrow(Next(s, Alloc(i, pid)), events, states, i);
  }

  // ---------- the code ----------

  /** The state after n slots have been looked at. */
  function ExamineMany(s: Cpu, n: nat): (t: Cpu)
    requires s.cursor < NPROC
    decreases n
  {
    if n == 0 || s.running then s else ExamineMany(Next(s, Examine), n - 1)
  }

  lemma {:induction false} ExamineLast(s: Cpu, n: nat)
    requires s.cursor < NPROC && !ExamineMany(s, n).running
    ensures ExamineMany(s, n).cursor < NPROC && ExamineMany(s, n + 1) == Next(ExamineMany(s, n), Examine)
    decreases n
  {
    if n == 0 || s.running {
    } else {
      ExamineLast(Next(s, Examine), n - 1);
    }
  }

  class Machine {
    const proc: array<Task>
    var cursor: nat
    var running: bool
    ghost var used: nat
    ghost var quota: nat

    ghost predicate Valid()
      reads this
    {
      proc.Length == NPROC && cursor < NPROC
    }

    ghost function Abs(): (s: Cpu)
      requires Valid()
      reads this, proc
    {
      Cpu(proc[..], cursor, running, used, quota)
    }

    constructor (tasks: Tasks)
      requires forall i | 0 <= i < NPROC :: tasks[i].state != RUNNING
      ensures Valid() && Abs() == Cpu(tasks, 0, false, 0, 0) && Inv(Abs())
    {
      proc := new Task[NPROC](i requires 0 <= i < NPROC => tasks[i]);
      cursor, running, used, quota := 0, false, 0, 0;
    }

    method UpdateTable()
      requires Valid()
      modifies proc
      ensures proc[..] == ChargeAll(old(proc[..]))
      ensures forall i | 0 <= i < NPROC ::
                var t := old(proc[i]);
                proc[i] == t.(rutime := if t.state == RUNNING then (t.rutime + 1) % WORD_LIMIT else t.rutime,
                              wtime := if t.state == RUNNABLE then (t.wtime + 1) % WORD_LIMIT else t.wtime)
    {
      for i := 0 to NPROC
        invariant forall k | 0 <= k < NPROC :: proc[k] == if k < i then Charged(old(proc[k])) else old(proc[k])
      {
        if proc[i].state == RUNNING { proc[i] := proc[i].(rutime := Inc(proc[i].rutime)); }
        if proc[i].state == RUNNABLE { proc[i] := proc[i].(wtime := Inc(proc[i].wtime)); }
      }
    }

    /** yield, or any other way back to the scheduler. */
    method SwitchTo(to: ProcState)
      requires Valid() && running
      modifies this, proc
      ensures Valid() && Abs() == Switch(old(Abs()), to)
    {
      proc[cursor] := proc[cursor].(state := to);
      running, used, quota := false, 0, 0;
      cursor := cursor + 1;
      if cursor == NPROC { cursor := 0; }
    }

    /** The timer branch of trap and what follows it; killed says that the process is to exit on its way out. */
    method TimerTrap(killed: bool)
      requires Valid() && Inv(Abs()) && Enabled(Abs(), Timer(killed))
      modifies this, proc
      ensures Valid() && Abs() == Next(old(Abs()), Timer(killed)) && Inv(Abs())
      ensures var t := old(proc[..])[old(cursor)];
              running <==>
                && old(running) && !killed && t.pid % 2 == 0
                && ((t.rutime + 1) % 2 != 0 || t.rutime + 1 == WORD_LIMIT)
      ensures old(running) && !running ==>
                && proc[old(cursor)].state == (if killed then ZOMBIE else RUNNABLE)
                && cursor == if old(cursor) + 1 < NPROC then old(cursor) + 1 else 0
    {
      StepInv(Abs(), Timer(killed));
      UpdateTable();
      used := if running then used + 1 else 0;
      if killed {
        SwitchTo(ZOMBIE);
      } else if running && proc[cursor].state == RUNNING
             && (!(proc[cursor].pid % 2 == 0) || (proc[cursor].rutime % 2 == 0 && proc[cursor].rutime != 0)) {
        SwitchTo(RUNNABLE);
      }
    }

    /** The scheduler's loop from the cursor to the end of the table, or to the first process it can switch to. */
    method Scan() returns (ghost n: nat)
      requires Valid() && Inv(Abs()) && !running
      modifies this, proc
      ensures Valid() && Inv(Abs()) && Abs() == ExamineMany(old(Abs()), n) && n <= NPROC - old(cursor)
      ensures !running ==> cursor == 0 && forall i | old(cursor) <= i < NPROC :: old(proc[i]).state != RUNNABLE
      ensures running ==> old(cursor) <= cursor && old(proc[..])[cursor].state == RUNNABLE
      ensures running ==> forall i | old(cursor) <= i < cursor :: old(proc[i]).state != RUNNABLE
    {
      n := 0;
      ghost var s := Abs();
      ghost var start := cursor;
      var i := cursor;
      while i < NPROC
        invariant Valid() && !running && used == quota == 0 && start <= i <= NPROC && n == i - start
        invariant proc[..] == s.tasks
        invariant cursor == if i == NPROC then 0 else i
        invariant ExamineMany(s, n) == Abs() && Inv(Abs())
        invariant forall k | start <= k < i :: s.tasks[k].state != RUNNABLE
      {
        ExamineLast(s, n);
        StepInv(Abs(), Examine);
        n := n + 1;
        if proc[i].state == RUNNABLE {
          proc[i] := proc[i].(state := RUNNING);
          running, quota := true, Quota(s.tasks[i]);
          assert proc[..] == s.tasks[i := s.tasks[i].(state := RUNNING)];
          return;
        }
        i := i + 1;
        cursor := if i == NPROC then 0 else i;
      }
    }
  }
}
