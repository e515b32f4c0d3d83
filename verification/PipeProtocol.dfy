/** Any number of processes at the two ends of a pipe, in any interleaving of their sections. */
module PipeProtocol {
  import opened Pipe
  import opened Words

  /** A process is elsewhere, in pipewrite with the rest of its bytes to write, or in piperead. */
  datatype Agent = Away | Writer(rest: seq<Byte>, asleep: bool) | Reader(n: int, asleep: bool)

  datatype State = State(fifo: Fifo, agents: seq<Agent>)

  datatype Event =
    | StartWrite(a: nat, addr: seq<Byte>)
    | StartRead(a: nat, n: int)
    | WriteOn(a: nat, killed: bool)
    | ReadOn(a: nat, killed: bool)
    | Rouse(a: nat)                  // kill wakes a sleeper
    | Close(writable: bool)

  predicate Is(s: State, a: nat, writer: bool) {
    a < |s.agents| && if writer then s.agents[a].Writer? else s.agents[a].Reader?
  }

  /** Nobody is in pipewrite, or in piperead; file.c closes an end only when its last descriptor goes. */
  predicate Clear(s: State, writable: bool) {
    forall a | 0 <= a < |s.agents| :: !(if writable then s.agents[a].Writer? else s.agents[a].Reader?)
  }

  predicate Enabled(s: State, e: Event) {
    match e
    case StartWrite(a, addr) => a < |s.agents| && s.agents[a] == Away && s.fifo.writeopen
    case StartRead(a, n) => a < |s.agents| && s.agents[a] == Away && s.fifo.readopen
    case WriteOn(a, killed) => Is(s, a, true) && !s.agents[a].asleep
    case ReadOn(a, killed) => Is(s, a, false) && !s.agents[a].asleep
    case Rouse(a) => a < |s.agents| && s.agents[a] != Away
    case Close(writable) => Clear(s, writable)
  }

  function Awake(g: Agent): (h: Agent) {
    match g
    case Away => Away
    case Writer(rest, _) => Writer(rest, false)
    case Reader(n, _) => Reader(n, false)
  }

  function WakeOne(g: Agent, writers: bool): (h: Agent) {
    if writers == g.Writer? then Awake(g) else g
  }

  /** wakeup(&p->nwrite), on which writers sleep, or wakeup(&p->nread). */
  function Wake(gs: seq<Agent>, writers: bool): (hs: seq<Agent>)
    ensures |hs| == |gs| && forall a | 0 <= a < |gs| :: hs[a] == WakeOne(gs[a], writers)
  {
    seq(|gs|, a requires 0 <= a < |gs| => WakeOne(gs[a], writers))
  }

  function Next(s: State, e: Event): (t: State)
    requires Enabled(s, e)
  {
    match e
    case StartWrite(a, addr) => s.(agents := s.agents[a := Writer(addr, false)])
    case StartRead(a, n) => s.(agents := s.agents[a := Reader(n, false)])
    case WriteOn(a, killed) =>
      var rest := s.agents[a].rest;
      var (f, left, r) := WriteSection(s.fifo, rest, killed);
      (match r
       case Done => State(f, Wake(s.agents, false)[a := Away])
       case Failed => State(f, s.agents[a := Away])
       case Asleep => State(f, Wake(s.agents, false)[a := Writer(left, true)]))
    case ReadOn(a, killed) =>
      var n := s.agents[a].n;
      var (f, got, r) := ReadSection(s.fifo, n, killed);
      (match r
       case Done => State(f, Wake(s.agents, true)[a := Away])
       case Failed => State(f, s.agents[a := Away])
       case Asleep => State(f, s.agents[a := Reader(n, true)]))
    case Rouse(a) => s.(agents := s.agents[a := Awake(s.agents[a])])
    case Close(writable) =>
      if writable then State(s.fifo.(writeopen := false), Wake(s.agents, false))
      else State(s.fifo.(readopen := false), Wake(s.agents, true))
  }

  // ---------- order and capacity ----------

  /** Whoever is in pipewrite or piperead holds that end open. */
  predicate Inside(f: Fifo, g: Agent) {
    (g.Writer? ==> f.writeopen) && (g.Reader? ==> f.readopen)
  }

  ghost predicate Inv(s: State) {
    FifoOk(s.fifo) && forall a | 0 <= a < |s.agents| :: Inside(s.fifo, s.agents[a])
  }

  lemma StepInv(s: State, e: Event)
    requires Inv(s) && Enabled(s, e)
    ensures Inv(Next(s, e))
  {
    match e
    case WriteOn(a, killed) =>
      WriteSectionOk(s.fifo, s.agents[a].rest, killed);
    case ReadOn(a, killed) =>
      ReadSectionOk(s.fifo, s.agents[a].n, killed);
    case _ =>
  }

  // ---------- who may sleep ----------

  predicate Empty(f: Fifo) {
    |f.sent| == |f.received|
  }

  predicate Full(f: Fifo) {
    |f.sent| == |f.received| + PIPESIZE
  }

  predicate SleepsWell(f: Fifo, g: Agent) {
    && (g.Reader? && g.asleep ==> Empty(f) && f.writeopen)
    && (g.Writer? && g.asleep ==> Full(f) && f.readopen)
  }

  /** A reader sleeps only at an empty pipe that can still be written, a writer only at a full one that can still be
      read. */
  predicate SleepOk(s: State) {
    forall a | 0 <= a < |s.agents| :: SleepsWell(s.fifo, s.agents[a])
  }

  predicate ReaderAsleep(s: State, a: nat) {
    a < |s.agents| && s.agents[a].Reader? && s.agents[a].asleep
  }

  /** The step that loses a wakeup: a killed writer with more bytes than the pipe holds, while a reader is asleep. */
  ghost predicate Loses(s: State, e: Event) {
    && e.WriteOn? && e.killed && s.fifo.readopen && Is(s, e.a, true) && |s.agents[e.a].rest| > PIPESIZE
    && exists b :: ReaderAsleep(s, b)
  }

  /** That step leaves the reader asleep beside a full pipe. */
  lemma LosingStep(s: State, e: Event, b: nat)
    requires Inv(s) && SleepOk(s) && Enabled(s, e) && Loses(s, e) && ReaderAsleep(s, b)
    ensures Full(Next(s, e).fifo) && ReaderAsleep(Next(s, e), b) && !SleepOk(Next(s, e))
  {
    assert SleepsWell(s.fifo, s.agents[b]);
    var t := Next(s, e);
    assert t.agents[b] == s.agents[b];
    assert !SleepsWell(t.fifo, t.agents[b]);
  }

  lemma WritingStep(s: State, a: nat, killed: bool)
    requires Inv(s) && SleepOk(s) && Enabled(s, WriteOn(a, killed)) && !Loses(s, WriteOn(a, killed))
    ensures SleepOk(Next(s, WriteOn(a, killed)))
  {
    var t := Next(s, WriteOn(a, killed));
    forall b | 0 <= b < |t.agents| ensures SleepsWell(t.fifo, t.agents[b]) {
      assert SleepsWell(s.fifo, s.agents[b]) && Inside(s.fifo, s.agents[b]) && Inside(s.fifo, s.agents[a]);
      assert !ReaderAsleep(s, b) || !(killed && s.fifo.readopen && |s.agents[a].rest| > PIPESIZE);
    }
  }

  lemma OtherStep(s: State, e: Event)
    requires Inv(s) && SleepOk(s) && Enabled(s, e) && !e.WriteOn?
    ensures SleepOk(Next(s, e))
  {
    var t := Next(s, e);
    forall b | 0 <= b < |t.agents| ensures SleepsWell(t.fifo, t.agents[b]) {
      assert SleepsWell(s.fifo, s.agents[b]) && Inside(s.fifo, s.agents[b]);
    }
  }

  /** A step keeps the sleep conditions exactly if it is not the losing one. */
  lemma StepSleep(s: State, e: Event)
    requires Inv(s) && SleepOk(s) && Enabled(s, e)
    ensures SleepOk(Next(s, e)) <==> !Loses(s, e)
  {
    if Loses(s, e) {
      var b :| ReaderAsleep(s, b);
      LosingStep(s, e, b);
    } else if e.WriteOn? {
      WritingStep(s, e.a, e.killed);
    } else {
      OtherStep(s, e);
    }
  }

  // ---------- runs ----------

  predicate Start(s: State) {
    s.fifo == Fifo([], [], true, true) && forall a | 0 <= a < |s.agents| :: s.agents[a] == Away
  }

  predicate Step(s: State, e: Event, t: State) {
    Enabled(s, e) && t == Next(s, e)
  }

  /** A run from an unused pipe, with the states it passes through. */
  predicate Run(events: seq<Event>, states: seq<State>) {
    && |states| == |events| + 1 && Start(states[0])
    && forall k | 0 <= k < |events| :: Step(states[k], events[k], states[k + 1])
  }

  lemma {:induction false} RunInv(events: seq<Event>, states: seq<State>, k: nat)
    requires Run(events, states) && k <= |events|
    ensures Inv(states[k])
  {
    if k == 0 {
      assert FifoOk(states[0].fifo);
    } else {
      RunInv(events, states, k - 1);
      assert Step(states[k - 1], events[k - 1], states[k]);
      StepInv(states[k - 1], events[k - 1]);
    }
  }

  /** In every run the bytes read are the first of those written, and at most 512 are on their way. */
  lemma FifoOrder(events: seq<Event>, states: seq<State>, k: nat)
    requires Run(events, states) && k <= |events|
    ensures var f := states[k].fifo; f.received <= f.sent && |f.sent| <= |f.received| + PIPESIZE
  {
    RunInv(events, states, k);
  }

  lemma {:induction false} SleepTo(events: seq<Event>, states: seq<State>, k: nat)
    requires Run(events, states) && k <= |events| && forall j | 0 <= j < k :: !Loses(states[j], events[j])
    ensures SleepOk(states[k])
  {
    if k == 0 {
      assert SleepOk(states[0]);
    } else {
      SleepTo(events, states, k - 1);
      RunInv(events, states, k - 1);
      assert Step(states[k - 1], events[k - 1], states[k]);
      StepSleep(states[k - 1], events[k - 1]);
    }
  }

  /** A run meets the sleep conditions all the way exactly if no step of it is the losing one. */
  lemma NoLostWakeup(events: seq<Event>, states: seq<State>)
    requires Run(events, states)
    ensures (forall k | 0 <= k <= |events| :: SleepOk(states[k])) <==>
            (forall k | 0 <= k < |events| :: !Loses(states[k], events[k]))
  {
    if forall k | 0 <= k <= |events| :: SleepOk(states[k]) {
      forall k | 0 <= k < |events| ensures !Loses(states[k], events[k]) {
        RunInv(events, states, k);
        assert Step(states[k], events[k], states[k + 1]) && SleepOk(states[k]) && SleepOk(states[k + 1]);
        StepSleep(states[k], events[k]);
      }
    }
    if forall k | 0 <= k < |events| :: !Loses(states[k], events[k]) {
      forall k | 0 <= k <= |events| ensures SleepOk(states[k]) {
        SleepTo(events, states, k);
      }
    }
  }

  /** Where the sleep conditions hold, a reader and a writer are never both asleep. */
  lemma NeverBothAsleep(s: State, a: nat, b: nat)
    requires SleepOk(s) && ReaderAsleep(s, a) && Is(s, b, true)
    ensures !s.agents[b].asleep
  {
    assert SleepsWell(s.fifo, s.agents[a]) && SleepsWell(s.fifo, s.agents[b]);
  }

  /** The losing step occurs: reader 0 falls asleep, and writer 1 is killed at the full pipe. */
  lemma KilledWriterLosesWakeup(rest: seq<Byte>) returns (events: seq<Event>, states: seq<State>)
    requires |rest| > PIPESIZE
    ensures Run(events, states) && |events| == 4 && Loses(states[3], events[3])
    ensures ReaderAsleep(states[4], 0) && Full(states[4].fifo)
  {
    var s0 := State(Fifo([], [], true, true), [Away, Away]);
    var s1 := Next(s0, StartRead(0, 1));
    var s2 := Next(s1, ReadOn(0, false));
    var s3 := Next(s2, StartWrite(1, rest));
    assert s3.agents[0] == Reader(1, true) && s3.agents[1] == Writer(rest, false);
    assert ReaderAsleep(s3, 0) && SleepOk(s3) && Inv(s3);
    var e := WriteOn(1, true);
    LosingStep(s3, e, 0);
    var s4 := Next(s3, e);
    events := [StartRead(0, 1), ReadOn(0, false), StartWrite(1, rest), e];
    states := [s0, s1, s2, s3, s4];
    forall k | 0 <= k < 4 ensures Step(states[k], events[k], states[k + 1]) {}
  }
}
