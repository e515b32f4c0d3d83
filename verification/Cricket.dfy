/** cricket-semaphores.c: players come in through a barrier of 22, bat one at a time under mut, and the last of a match
    calls the umpire through sig, who adds the match up and lets the next 22 in. */
module Cricket {
  const TEAM := 11
  const FIELD := 22

  // ---------- the score board ----------

  /** The shared variables that mut protects. */
  datatype Board = Board(counterCapital: nat, counterTitan: nat, capitalScore: nat, titanScore: nat,
                         permatch: nat, individual: nat, maxscore: nat, matchNo: nat,
                         capitalsWin: nat, titansWin: nat, tied: nat)

  function Larger(a: nat, b: nat): (m: nat) {
    if a > b then a else b
  }

  /** The critical section of bat. */
  function Batted(b: Board, run: nat): (c: Board) {
    var c :=
      if b.counterCapital < TEAM then
        b.(counterCapital := b.counterCapital + 1, capitalScore := b.capitalScore + run)
      else
        b.(counterTitan := b.counterTitan + 1, titanScore := b.titanScore + run);
    c.(individual := Larger(run, b.individual), permatch := Larger(run, b.permatch))
  }

  /** Does this batsman call the umpire? */
  predicate Calls(b: Board) {
    b.counterCapital >= TEAM && b.counterTitan + 1 == TEAM
  }

  /** The umpire's section: the result is entered and the match variables are reset. */
  function Tallied(b: Board): (c: Board) {
    var c := if b.capitalScore > b.titanScore then b.(capitalsWin := b.capitalsWin + 1)
             else if b.titanScore > b.capitalScore then b.(titansWin := b.titansWin + 1)
             else b.(tied := b.tied + 1);
    c.(matchNo := b.matchNo + 1, maxscore := Larger(Larger(b.capitalScore, b.titanScore), b.maxscore),
       permatch := 0, counterCapital := 0, counterTitan := 0, capitalScore := 0, titanScore := 0)
  }

  // ---------- what the board should say ----------

  function Total(s: seq<nat>): (n: nat) {
    if s == [] then 0 else Total(s[..|s| - 1]) + s[|s| - 1]
  }

  function Best(s: seq<nat>): (n: nat) {
    if s == [] then 0 else Larger(s[|s| - 1], Best(s[..|s| - 1]))
  }

  /** The runs of a match in order of batting: the first eleven are the Capitals'. */
  function Capitals(runs: seq<nat>): (s: seq<nat>) {
    if |runs| <= TEAM then runs else runs[..TEAM]
  }

  function Titans(runs: seq<nat>): (s: seq<nat>) {
    if |runs| <= TEAM then [] else runs[TEAM..]
  }

  datatype Verdict = CapitalsWon | TitansWon | Tie

  function Result(runs: seq<nat>): (v: Verdict) {
    var c, t := Total(Capitals(runs)), Total(Titans(runs));
    if c > t then CapitalsWon else if t > c then TitansWon else Tie
  }

  function CountOf(past: seq<seq<nat>>, v: Verdict): (n: nat) {
    if past == [] then 0 else CountOf(past[..|past| - 1], v) + if Result(past[|past| - 1]) == v then 1 else 0
  }

  function BestTeam(past: seq<seq<nat>>): (n: nat) {
    if past == [] then 0
    else
      var last := past[|past| - 1];
      Larger(Larger(Total(Capitals(last)), Total(Titans(last))), BestTeam(past[..|past| - 1]))
  }

  function BestPlayer(past: seq<seq<nat>>): (n: nat) {
    if past == [] then 0 else Larger(Best(past[|past| - 1]), BestPlayer(past[..|past| - 1]))
  }

  /** The board after the matches of the past and the runs so far. */
  ghost predicate BoardOk(b: Board, past: seq<seq<nat>>, runs: seq<nat>) {
    && b.counterCapital == |Capitals(runs)| && b.counterTitan == |Titans(runs)|
    && b.capitalScore == Total(Capitals(runs)) && b.titanScore == Total(Titans(runs))
    && b.permatch == Best(runs) && b.individual == Larger(Best(runs), BestPlayer(past))
    && b.maxscore == BestTeam(past) && b.matchNo == |past|
    && b.capitalsWin == CountOf(past, CapitalsWon) && b.titansWin == CountOf(past, TitansWon)
    && b.tied == CountOf(past, Tie)
    && forall m | 0 <= m < |past| :: |past[m]| == FIELD
  }

  lemma BlankBoard(past: seq<seq<nat>>, runs: seq<nat>)
    requires |past| == 0 && |runs| == 0
    ensures BoardOk(Board(0, 0, 0, 0, 0, 0, 0, 0, 0, 0, 0), past, runs)
  {}

  lemma BattedOk(b: Board, past: seq<seq<nat>>, runs: seq<nat>, run: nat)
    requires BoardOk(b, past, runs)
    ensures BoardOk(Batted(b, run), past, runs + [run])
  {
    var more := runs + [run];
    assert more[..|runs|] == runs;
    if |runs| < TEAM {
      assert Capitals(more)[..|runs|] == Capitals(runs);
    } else {
      assert Capitals(more) == Capitals(runs);
      assert Titans(more) == Titans(runs) + [run];
      assert Titans(more)[..|Titans(runs)|] == Titans(runs);
    }
  }

  lemma TalliedOk(b: Board, past: seq<seq<nat>>, runs: seq<nat>, none: seq<nat>)
    requires BoardOk(b, past, runs) && |runs| == FIELD && |none| == 0
    ensures BoardOk(Tallied(b), past + [runs], none)
  {
    assert (past + [runs])[..|past|] == past;
  }

  lemma {:induction false} ResultsAddUp(past: seq<seq<nat>>)
    ensures CountOf(past, CapitalsWon) + CountOf(past, TitansWon) + CountOf(past, Tie) == |past|
  {
    if past == [] {
    } else {
      ResultsAddUp(past[..|past| - 1]);
    }
  }

  lemma {:induction false} BestIsMax(s: seq<nat>)
    ensures forall k | 0 <= k < |s| :: s[k] <= Best(s)
    ensures s != [] ==> Best(s) in s
  {
    if s == [] {
    } else {
      BestIsMax(s[..|s| - 1]);
      assert forall k | 0 <= k < |s| - 1 :: s[k] == s[..|s| - 1][k];
      assert s[|s| - 1] in s;
    }
  }

  /** The highest team score: no team of any match has more, and some team has it. */
  lemma {:induction false} BestTeamIsMax(past: seq<seq<nat>>)
    ensures forall m | 0 <= m < |past| ::
              Total(Capitals(past[m])) <= BestTeam(past) && Total(Titans(past[m])) <= BestTeam(past)
    ensures past != [] ==>
              exists m :: 0 <= m < |past| && BestTeam(past) == Larger(Total(Capitals(past[m])), Total(Titans(past[m])))
  {
    if past == [] {
    } else {
      var front := past[..|past| - 1];
      BestTeamIsMax(front);
      assert forall m | 0 <= m < |front| :: past[m] == front[m];
      assert past[|past| - 1] == past[|front|];
    }
  }

  lemma {:induction false} BestPlayerIsMax(past: seq<seq<nat>>, m: nat, k: nat)
    requires m < |past| && k < |past[m]|
    ensures past[m][k] <= BestPlayer(past)
  {
    if m == |past| - 1 {
      BestIsMax(past[m]);
    } else {
      BestPlayerIsMax(past[..|past| - 1], m, k);
    }
  }

  lemma {:induction false} BestPlayerPlayed(past: seq<seq<nat>>)
    ensures BestPlayer(past) == 0 || exists m :: 0 <= m < |past| && BestPlayer(past) in past[m]
  {
    if past == [] {
    } else {
      var front, last := past[..|past| - 1], past[|past| - 1];
      BestPlayerPlayed(front);
      BestIsMax(last);
      if BestPlayer(past) == BestPlayer(front) && BestPlayer(front) != 0 {
        var m :| 0 <= m < |front| && BestPlayer(front) in front[m];
        assert past[m] == front[m];
      } else {
        assert last == past[|past| - 1];
      }
    }
  }

  class Scoreboard {
    var counterCapital: nat
    var counterTitan: nat
    var capitalScore: nat
    var titanScore: nat
    var permatchscore: nat
    var individualScore: nat
    var maxscore: nat
    var matchNo: nat
    var capitalswin: nat
    var titanswin: nat
    var tied: nat
    ghost var past: seq<seq<nat>>
    ghost var runs: seq<nat>

    ghost function Abs(): (b: Board)
      reads this
    {
      Board(counterCapital, counterTitan, capitalScore, titanScore, permatchscore, individualScore, maxscore, matchNo,
            capitalswin, titanswin, tied)
    }

    ghost predicate Valid()
      reads this
    {
      BoardOk(Abs(), past, runs)
    }

    constructor ()
      ensures Valid() && past == [] && runs == []
    {
      counterCapital, counterTitan, capitalScore, titanScore, permatchscore, individualScore := 0, 0, 0, 0, 0, 0;
      maxscore, matchNo, capitalswin, titanswin, tied := 0, 0, 0, 0, 0;
      past, runs := [], [];
    }

    /** The variables that bat changes. */
    method EnterRun(run: nat) returns (call: bool)
      modifies this
      ensures Abs() == Batted(old(Abs()), run) && call == Calls(old(Abs())) && past == old(past) && runs == old(runs)
    {
      call := false;
      if counterCapital < 11 {
        counterCapital := counterCapital + 1;
        capitalScore := capitalScore + run;
        if run > individualScore { individualScore := run; }
        if run > permatchscore { permatchscore := run; }
      } else {
        counterTitan := counterTitan + 1;
        titanScore := titanScore + run;
        if run > individualScore { individualScore := run; }
        if run > permatchscore { permatchscore := run; }
        if counterTitan == 11 { call := true; }
      }
    }

    /** bat between its two operations on mut; call is the post of sig. */
    method Bat(run: nat) returns (call: bool)
      requires Valid()
      modifies this
      ensures Valid() && Abs() == Batted(old(Abs()), run) && call == Calls(old(Abs()))
      ensures runs == old(runs) + [run] && past == old(past)
    {
      BattedOk(Abs(), past, runs, run);
      call := EnterRun(run);
      runs := runs + [run];
    }

    /** The result of the match is entered, and its variables are reset. */
    method EnterResult()
      modifies this
      ensures Abs() == Tallied(old(Abs())) && past == old(past) && runs == old(runs)
    {
      matchNo := matchNo + 1;
      if capitalScore > titanScore {
        capitalswin := capitalswin + 1;
        if capitalScore > maxscore { maxscore := capitalScore; }
      } else if titanScore > capitalScore {
        titanswin := titanswin + 1;
        if titanScore > maxscore { maxscore := titanScore; }
      } else {
        tied := tied + 1;
        maxscore := if capitalScore > maxscore then capitalScore else maxscore;
      }
      permatchscore, counterCapital, counterTitan, capitalScore, titanScore := 0, 0, 0, 0, 0;
    }

    /** startGame between its waits and its posts; the results are what it prints. */
    method Tally() returns (number: nat, capitals: nat, titans: nat, highest: nat)
      requires Valid() && |runs| == FIELD
      modifies this
      ensures Valid() && Abs() == Tallied(old(Abs())) && past == old(past) + [old(runs)] && |runs| == 0
      ensures number == |past| && capitals == Total(old(runs)[..TEAM]) && titans == Total(old(runs)[TEAM..])
      ensures highest == Best(old(runs))
    {
      ghost var none: seq<nat> :| |none| == 0;
      TalliedOk(Abs(), past, runs, none);
      number, capitals, titans, highest := matchNo + 1, capitalScore, titanScore, permatchscore;
      EnterResult();
      past, runs := past + [runs], none;
    }
  }
}
