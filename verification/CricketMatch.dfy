/** The threads of cricket-semaphores.c in any schedule. bat does not use its argument, so players are only counted by
    where they are. */
module CricketMatch {
  import opened Cricket

  /** Where the umpire is: at the test of his loop; past sig; past mut; with j posts of the barrier behind him; done. */
  datatype Umpire = Ready | Called | Holding | Posting(j: nat) | Finished

  /** Players before the barrier, past it, past mut, past their turn with mut still to post, and gone. */
  datatype State = State(barrier: nat, mut: nat, sig: nat, umpire: Umpire,
                         waiting: nat, admitted: nat, batting: nat, leaving: nat, gone: nat,
                         board: Board, past: seq<seq<nat>>, runs: seq<nat>)

  datatype Event =
    | Enter                // sem_wait(&barrier)
    | TakeMut              // sem_wait(&mut), by a player
    | Bat(run: nat)
    | GiveMut              // sem_post(&mut), by a player
    | Answer               // sem_wait(&sig)
    | UmpireMut            // sem_wait(&mut)
    | Tally
    | PostBarrier
    | UmpireDone           // sem_post(&mut)
    | Finish

  predicate Enabled(matches: nat, s: State, e: Event) {
    match e
    case Enter => s.waiting > 0 && s.barrier > 0
    case TakeMut => s.admitted > 0 && s.mut > 0
    case Bat(run) => s.batting > 0
    case GiveMut => s.leaving > 0
    case Answer => s.umpire == Ready && s.board.matchNo < matches && s.sig > 0
    case UmpireMut => s.umpire == Called && s.mut > 0
    case Tally => s.umpire == Holding
    case PostBarrier => s.umpire.Posting? && s.umpire.j < FIELD
    case UmpireDone => s.umpire == Posting(FIELD)
    case Finish => s.umpire == Ready && s.board.matchNo >= matches
  }

  function Next(matches: nat, s: State, e: Event): (t: State)
    requires Enabled(matches, s, e)
  {
    match e
    case Enter => s.(waiting := s.waiting - 1, barrier := s.barrier - 1, admitted := s.admitted + 1)
    case TakeMut => s.(admitted := s.admitted - 1, mut := s.mut - 1, batting := s.batting + 1)
    case Bat(run) => s.(batting := s.batting - 1, leaving := s.leaving + 1, board := Batted(s.board, run),
                        runs := s.runs + [run], sig := if Calls(s.board) then s.sig + 1 else s.sig)
    case GiveMut => s.(leaving := s.leaving - 1, mut := s.mut + 1, gone := s.gone + 1)
    case Answer => s.(umpire := Called, sig := s.sig - 1)
    case UmpireMut => s.(umpire := Holding, mut := s.mut - 1)
    case Tally => s.(umpire := Posting(0), board := Tallied(s.board), past := s.past + [s.runs], runs := [])
    case PostBarrier => s.(umpire := Posting(s.umpire.j + 1), barrier := s.barrier + 1)
    case UmpireDone => s.(umpire := Ready, mut := s.mut + 1)
    case Finish => s.(umpire := Finished)
  }

  /** main, with n players: sig is made with value 1 and waited for at once. */
  predicate Start(n: nat, s: State) {
    && s.barrier == FIELD && s.mut == 1 && s.sig == 0 && s.umpire == Ready
    && s.waiting == n && s.admitted == s.batting == s.leaving == s.gone == 0
    && s.board == Board(0, 0, 0, 0, 0, 0, 0, 0, 0, 0, 0) && |s.past| == 0 && |s.runs| == 0
  }

  // ---------- invariant ----------

  function Pending(u: Umpire): (n: int) {
    if u.Posting? then FIELD - u.j else 0
  }

  function HoldsMut(u: Umpire): (n: nat) {
    if u == Holding || u.Posting? then 1 else 0
  }

  ghost predicate Inv(n: nat, s: State) {
    && BoardOk(s.board, s.past, s.runs)
    && s.waiting + s.admitted + s.batting + s.leaving + s.gone == n
    // places at the barrier, players on the field, players counted, and posts to come
    && s.barrier + s.admitted + s.batting + s.board.counterCapital + s.board.counterTitan + Pending(s.umpire) == FIELD
    && s.mut + s.batting + s.leaving + HoldsMut(s.umpire) == 1
    && (s.umpire.Posting? ==> s.umpire.j <= FIELD && |s.runs| == 0)
    // the umpire is called for a full match and for nothing else
    && s.sig + (if s.umpire == Called || s.umpire == Holding then 1 else 0) == (if |s.runs| == FIELD then 1 else 0)
    && (s.umpire == Finished ==> |s.past| >= n / FIELD) && |s.past| <= n / FIELD
    // those who have batted
    && s.leaving + s.gone == FIELD * |s.past| + |s.runs|
  }

  lemma StartInv(n: nat, s: State)
    requires Start(n, s)
    ensures Inv(n, s)
  {
    BlankBoard(s.past, s.runs);
  }

  lemma BatInv(n: nat, s: State, run: nat)
    requires Inv(n, s) && Enabled(n / FIELD, s, Bat(run))
    ensures Inv(n, Next(n / FIELD, s, Bat(run)))
  {
    BattedOk(s.board, s.past, s.runs, run);
  }

  lemma TallyInv(n: nat, s: State)
    requires Inv(n, s) && Enabled(n / FIELD, s, Tally)
    ensures Inv(n, Next(n / FIELD, s, Tally))
  {
    var t := Next(n / FIELD, s, Tally);
    TalliedOk(s.board, s.past, s.runs, t.runs);
  }

  lemma StepInv(n: nat, s: State, e: Event)
    requires Inv(n, s) && Enabled(n / FIELD, s, e)
    ensures Inv(n, Next(n / FIELD, s, e))
  {
    match e
    case Bat(run) => BatInv(n, s, run);
    case Tally => TallyInv(n, s);
    case _ =>
  }

  // ---------- progress ----------

  /** What is left to do. */
  function Work(matches: nat, s: State): (w: int) {
    4 * s.waiting + 3 * s.admitted + 2 * s.batting + s.leaving + 30 * (matches - s.board.matchNo) +
    match s.umpire
    case Ready => 3
    case Called => 2
    case Holding => 1
    case Posting(j) => FIELD - j + 5
    case Finished => 0
  }

  lemma WorkBounded(n: nat, s: State)
    requires Inv(n, s)
    ensures Work(n / FIELD, s) >= 0
  {}

  lemma WorkShrinks(n: nat, s: State, e: Event)
    requires Inv(n, s) && Enabled(n / FIELD, s, e)
    ensures Work(n / FIELD, Next(n / FIELD, s, e)) < Work(n / FIELD, s)
  {}

  predicate Over(n: nat, s: State) {
    s.umpire == Finished && s.gone == n
  }

  /** Somebody can always go on until all is over. */
  lemma NoDeadlock(n: nat, s: State) returns (e: Event)
    requires Inv(n, s) && !Over(n, s)
    ensures Enabled(n / FIELD, s, e)
  {
    e := if s.batting > 0 then Bat(0)
         else if s.leaving > 0 then GiveMut
         else if s.umpire == Holding then Tally
         else if s.umpire.Posting? then (if s.umpire.j < FIELD then PostBarrier else UmpireDone)
         else if s.umpire == Called then UmpireMut
         else if s.admitted > 0 then TakeMut
         else if s.waiting > 0 && s.barrier > 0 then Enter
         else if s.sig > 0 && s.umpire == Ready && s.board.matchNo < n / FIELD then Answer
         else Finish;
  }

  // ---------- whole runs ----------

  ghost predicate Reached(n: nat, events: seq<Event>, s: State) {
    if events == [] then Start(n, s)
    else
      var last := events[|events| - 1];
      exists p :: Reached(n, events[..|events| - 1], p) && Enabled(n / FIELD, p, last) && s == Next(n / FIELD, p, last)
  }

  lemma {:induction false} ReachedInv(n: nat, events: seq<Event>, s: State)
    requires Reached(n, events, s)
    ensures Inv(n, s) && |events| + Work(n / FIELD, s) <= 4 * n + 30 * (n / FIELD) + 3
    decreases |events|
  {
    if events == [] {
      StartInv(n, s);
    } else {
      var last := events[|events| - 1];
      var p :| Reached(n, events[..|events| - 1], p) && Enabled(n / FIELD, p, last) && s == Next(n / FIELD, p, last);
      ReachedInv(n, events[..|events| - 1], p);
      StepInv(n, p, last);
      WorkShrinks(n, p, last);
    }
  }

  /** In every run: the sum of 22, full teams in every match added up, results that add up, and true maxima. */
  lemma MatchesFair(n: nat, events: seq<Event>, s: State)
    requires Reached(n, events, s)
    ensures s.barrier + s.admitted + s.batting + s.board.counterCapital + s.board.counterTitan
            + Pending(s.umpire) == FIELD
    ensures s.umpire == Holding ==> s.board.counterCapital == TEAM && s.board.counterTitan == TEAM
    ensures s.board.capitalsWin + s.board.titansWin + s.board.tied == s.board.matchNo == |s.past| <= n / FIELD
    ensures forall m | 0 <= m < |s.past| :: |s.past[m]| == FIELD
    ensures forall m, k | 0 <= m < |s.past| && 0 <= k < |s.past[m]| :: s.past[m][k] <= s.board.individual
    ensures s.board.individual == 0 || s.board.individual in s.runs
            || exists m :: 0 <= m < |s.past| && s.board.individual in s.past[m]
    ensures forall k | 0 <= k < |s.runs| :: s.runs[k] <= s.board.individual && s.runs[k] <= s.board.permatch
    ensures forall m | 0 <= m < |s.past| ::
              Total(Capitals(s.past[m])) <= s.board.maxscore && Total(Titans(s.past[m])) <= s.board.maxscore
    ensures s.past != [] ==>
              exists m :: 0 <= m < |s.past| &&
                s.board.maxscore == Larger(Total(Capitals(s.past[m])), Total(Titans(s.past[m])))
  {
    ReachedInv(n, events, s);
    ResultsAddUp(s.past);
    BestIsMax(s.runs);
    BestTeamIsMax(s.past);
    BestPlayerPlayed(s.past);
    forall m, k | 0 <= m < |s.past| && 0 <= k < |s.past[m]| ensures s.past[m][k] <= s.board.individual {
      BestPlayerIsMax(s.past, m, k);
    }
  }

  /** Every schedule comes to an end, and only with all players gone and all matches played: no run is longer than a
      bound set by the number of players, and a run that cannot go on is over. */
  lemma AllMatchesPlayed(n: nat, events: seq<Event>, s: State)
    requires Reached(n, events, s)
    ensures |events| <= 4 * n + 30 * (n / FIELD) + 3
    ensures (forall e :: !Enabled(n / FIELD, s, e)) ==> Over(n, s) && s.board.matchNo == n / FIELD
  {
    ReachedInv(n, events, s);
    WorkBounded(n, s);
    if !Over(n, s) { var e := NoDeadlock(n, s); }
  }
}
