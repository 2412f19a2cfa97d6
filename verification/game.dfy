/**
 * The match driver (class Game of src/game.py): two hundred rounds, blue acting
 * before red in each, every turn refreshing the acting team's robots, paying its
 * passive metal and charging its clock; a team whose player overruns its clock
 * loses at once, and otherwise the final board, registries, metal and clocks
 * decide the winner.
 */
module Games {
  import opened Constants
  import opened Errors
  import opened Grid
  import opened Tiles
  import opened Maps
  import opened Robots
  import opened Replays
  import opened Registries
  import opened GameStates

  /**
   * What the driver observes of a player's turn: how long play_turn ran, and
   * whether its thread was still alive when the join gave up waiting.
   */
  datatype TurnReport = TurnReport(duration: int, stillRunning: bool)

  /** A turn is lost on time when the thread is still running or used up the whole clock. */
  predicate TimedOut(report: TurnReport, timeLeft: int) {
    report.stillRunning || report.duration >= timeLeft
  }

  /** What the driver observes of one round: blue's turn, then red's. */
  datatype Round = Round(blue: TurnReport, red: TurnReport)

  /**
   * The team whose clock runs out first when the rounds from `i` on (counted
   * from 0) are played with these clocks, blue before red in each round, or
   * None when both last to the end.
   */
  function FirstTimeout(rounds: seq<Round>, i: nat, redTime: int, blueTime: int): Option<Team>
    decreases |rounds| - i
  {
    if i >= |rounds| then None
    else if TimedOut(rounds[i].blue, blueTime) then Some(Blue)
    else if TimedOut(rounds[i].red, redTime) then Some(Red)
    else FirstTimeout(rounds, i + 1, redTime - rounds[i].red.duration, blueTime - rounds[i].blue.duration)
  }

  /** How one round bears on FirstTimeout: blue's clock is asked first, red's only if blue's held. */
  lemma RoundOutcome(rounds: seq<Round>, i: nat, redTime: int, blueTime: int)
    requires i < |rounds|
    ensures TimedOut(rounds[i].blue, blueTime) ==> FirstTimeout(rounds, i, redTime, blueTime) == Some(Blue)
    ensures !TimedOut(rounds[i].blue, blueTime) && TimedOut(rounds[i].red, redTime) ==>
      FirstTimeout(rounds, i, redTime, blueTime) == Some(Red)
    ensures !TimedOut(rounds[i].blue, blueTime) && !TimedOut(rounds[i].red, redTime) ==>
      FirstTimeout(rounds, i, redTime, blueTime) ==
      FirstTimeout(rounds, i + 1, redTime - rounds[i].red.duration, blueTime - rounds[i].blue.duration)
  {
  }

  // ---------------------------------------------------------------------------
  // Scoring
  // ---------------------------------------------------------------------------

  /** One team's standing at the end of the game. */
  datatype Score = Score(terraformed: int, robots: int, metal: int, timeLeft: int)

  /** A standing as a key to compare, most important first; less time left is better. */
  function Key(s: Score): seq<int> {
    [s.terraformed, s.robots, s.metal, -s.timeLeft]
  }

  /** `a` is strictly greater than `b` in lexicographic order. */
  predicate LexGreater(a: seq<int>, b: seq<int>)
    requires |a| == |b|
  {
    |a| > 0 && (a[0] > b[0] || (a[0] == b[0] && LexGreater(a[1..], b[1..])))
  }

  /** One step of the lexicographic comparison: the heads decide unless they are equal. */
  lemma LexStep(a: seq<int>, b: seq<int>)
    requires |a| == |b| > 0
    ensures LexGreater(a, b) <==> a[0] > b[0] || (a[0] == b[0] && LexGreater(a[1..], b[1..]))
  {
  }

  /**
   * The tie-break cascade closing run_game: more terraformed tiles, then more
   * robots, then more metal, then less time left; red on a complete tie.
   */
  function DecideWinner(red: Score, blue: Score): (w: Team)
    ensures red == blue ==> w == Red
  {
    if red.terraformed > blue.terraformed then Red
    else if blue.terraformed > red.terraformed then Blue
    else if red.robots > blue.robots then Red
    else if blue.robots > red.robots then Blue
    else if red.metal > blue.metal then Red
    else if blue.metal > red.metal then Blue
    else if red.timeLeft < blue.timeLeft then Red
    else if blue.timeLeft < red.timeLeft then Blue
    else Red
  }

  /** Blue wins exactly when its key is lexicographically greater than red's; every other outcome is red's. */
  lemma WinnerIsLexOrder(red: Score, blue: Score)
    ensures DecideWinner(red, blue) == Blue <==> LexGreater(Key(blue), Key(red))
    ensures DecideWinner(red, blue) == Red <==> !LexGreater(Key(blue), Key(red))
  {
    var b, r := Key(blue), Key(red);
    LexStep(b, r);
    var b1, r1 := b[1..], r[1..];
    assert b1 == [blue.robots, blue.metal, -blue.timeLeft] && r1 == [red.robots, red.metal, -red.timeLeft];
    LexStep(b1, r1);
    var b2, r2 := b1[1..], r1[1..];
    assert b2 == [blue.metal, -blue.timeLeft] && r2 == [red.metal, -red.timeLeft];
    LexStep(b2, r2);
    var b3, r3 := b2[1..], r2[1..];
    assert b3 == [-blue.timeLeft] && r3 == [-red.timeLeft];
    LexStep(b3, r3);
    assert !LexGreater(b3[1..], r3[1..]);
  }

  /** Swapping the two standings swaps the winner, unless they tie completely. */
  lemma WinnerSwaps(a: Score, b: Score)
    requires a != b
    ensures DecideWinner(a, b) == Red <==> DecideWinner(b, a) == Blue
  {
    WinnerIsLexOrder(a, b);
    WinnerIsLexOrder(b, a);
  }

  /**
   * Who counts tile (r, c) at the end: a tile terraformed for blue counts for
   * blue, else one terraformed for red counts for red.
   */
  function CellOwner(m: Map, r: int, c: int): Option<Team>
    requires m.Valid() && m.InBounds(r, c)
    reads m, m.tiles
  {
    if m.IsTerraformed(Blue, r, c) == Some(true) then Some(Blue)
    else if m.IsTerraformed(Red, r, c) == Some(true) then Some(Red)
    else None
  }

  /** No tile is terraformed for both teams, so the order of the two questions does not matter. */
  lemma OwnerIsTerraformer(m: Map, r: int, c: int, t: Team)
    requires m.Valid() && m.InBounds(r, c)
    ensures CellOwner(m, r, c) == Some(t) <==> m.IsTerraformed(t, r, c) == Some(true)
  {
    var v := m.tiles[r, c].terraform;
    assert v * TerraformStep(Blue) == v && v * TerraformStep(Red) == -v;
  }

  /** The tiles of row `r` before column `c` that count for `t`. */
  ghost function RowTally(m: Map, t: Team, r: int, c: int): nat
    requires m.Valid() && 0 <= r < m.height && 0 <= c <= m.width
    reads m, m.tiles
  {
    if c == 0 then 0 else RowTally(m, t, r, c - 1) + (if CellOwner(m, r, c - 1) == Some(t) then 1 else 0)
  }

  /** The tiles of the rows before `r` that count for `t`. */
  ghost function Tally(m: Map, t: Team, r: int): nat
    requires m.Valid() && 0 <= r <= m.height
    reads m, m.tiles
  {
    if r == 0 then 0 else Tally(m, t, r - 1) + RowTally(m, t, r - 1, m.width)
  }

  /** Each tile counts for one team at most: the two tallies of a row share its width. */
  lemma {:induction false} RowTallyBound(m: Map, r: int, c: int)
    requires m.Valid() && 0 <= r < m.height && 0 <= c <= m.width
    ensures RowTally(m, Red, r, c) + RowTally(m, Blue, r, c) <= c
  {
    if c > 0 {
      RowTallyBound(m, r, c - 1);
    }
  }

  /** Each tile counts for one team at most: the two totals share the board. */
  lemma {:induction false} TallyBound(m: Map, r: int)
    requires m.Valid() && 0 <= r <= m.height
    ensures Tally(m, Red, r) + Tally(m, Blue, r) <= r * m.width
  {
    if r > 0 {
      TallyBound(m, r - 1);
      RowTallyBound(m, r - 1, m.width);
      assert (r - 1) * m.width + m.width == r * m.width;
    }
  }

  // ---------------------------------------------------------------------------
  // The replay call of a timed-out turn
  // ---------------------------------------------------------------------------

  /**
   * How Python binds the numbers after the team name in a call to
   * Replay.addTurn when `timeout` is given by keyword or left at its default:
   * time_left, num_robots, turn_number and metal are all required, so exactly
   * four must be given, else the call raises TypeError.
   */
  function BindAddTurn(args: seq<int>): (r: Result<(int, int, int, int)>)
    ensures r.Ok? <==> |args| == 4
    ensures r.Err? ==> r.error == Runtime(TypeError)
    ensures r.Ok? ==> r.value == (args[0], args[1], args[2], args[3])
  {
    if |args| == 4 then Ok((args[0], args[1], args[2], args[3])) else Err(Runtime(TypeError))
  }

  /** The timed-out branch of run_turn passes three numbers: the call raises TypeError on every turn. */
  lemma TimeoutCallAsWritten(turn: int)
    ensures BindAddTurn([-1, turn, -1]) == Err(Runtime(TypeError))
  {
    assert |[-1, turn, -1]| == 3;
  }

  /** With the robot count in its place the call binds, recording the turn number as the turn number. */
  lemma TimeoutCallCorrected(turn: int, numRobots: int)
    ensures BindAddTurn([-1, numRobots, turn, -1]) == Ok((-1, numRobots, turn, -1))
  {
    assert |[-1, numRobots, turn, -1]| == 4;
  }

  /** Robot `x` stands on a tile of `m` terraformed for team `t`. */
  predicate OnOwnTile(m: Map, t: Team, x: Robot)
    requires m.Valid()
    reads m, m.tiles, x
  {
    m.IsTerraformed(t, x.row, x.col) == Some(true)
  }

  /**
   * The start of a turn left robot `x` where it was, free to move and act,
   * and charged by ROBOT_CHARGE (capped at INIT_BATTERY) when `charged`.
   */
  twostate predicate Refreshed(x: Robot, charged: bool)
    reads x
  {
    && !x.moved && !x.acted
    && x.row == old(x.row) && x.col == old(x.col)
    && x.battery == if !charged then old(x.battery)
                    else if old(x.battery) + ROBOT_CHARGE < INIT_BATTERY then old(x.battery) + ROBOT_CHARGE
                    else INIT_BATTERY
  }

  /**
   * The robot loop of run_turn: each robot of the acting team `t` may move and
   * act again, and one standing on a tile terraformed for `t` is charged.
   */
  method RefreshRobots(robots: seq<Robot>, m: Map, t: Team)
    requires m.Valid() && NoDup(robots)
    modifies robots
    ensures forall i :: 0 <= i < |robots| ==> Refreshed(robots[i], OnOwnTile(m, t, robots[i]))
  {
    var i := 0;
    while i < |robots|
      invariant 0 <= i <= |robots|
      invariant forall k :: 0 <= k < i ==> Refreshed(robots[k], OnOwnTile(m, t, robots[k]))
      invariant forall k :: i <= k < |robots| ==> unchanged(robots[k])
    {
      var x := robots[i];
      x.ResetActedStatus();
      x.ResetMoveStatus();
      if m.IsTerraformed(t, x.row, x.col) == Some(true) {
        x.Charge(ROBOT_CHARGE);
      }
      i := i + 1;
    }
  }

  // ---------------------------------------------------------------------------
  // The driver
  // ---------------------------------------------------------------------------

  class Game {
    const gs: GameState

    /** A new match on `board`: the log's header, both teams at the start of the rules engine's state. */
    constructor (gameName: string, mapName: string, redBot: string, blueBot: string, board: Map, counter: RobotCounter)
      requires board.Valid()
      ensures fresh(gs) && fresh(gs.replay)
      ensures gs.Valid() && gs.board == board && gs.counter == counter
      ensures gs.red == [] && gs.blue == [] && gs.team == Blue && gs.turn == 1
      ensures gs.redMetal == INIT_METAL && gs.blueMetal == INIT_METAL
      ensures gs.redTime == TIME_LIMIT && gs.blueTime == TIME_LIMIT
      ensures gs.replay.gameName == gameName && gs.replay.mapName == mapName
      ensures gs.replay.redBot == redBot && gs.replay.blueBot == blueBot
      ensures gs.replay.mapHeight == board.height && gs.replay.mapWidth == board.width
      ensures gs.replay.initialMetal == INIT_METAL && gs.replay.initial == board.initial
      ensures gs.replay.winner == None && gs.replay.turns == []
    {
      var replay := new Replay(gameName, mapName, board.height, board.width, redBot, blueBot, INIT_METAL, board.initial);
      gs := new GameState(board, replay, counter);
    }

    /** The acting team's clock. */
    function TimeLeft(): (t: int)
      reads this, gs
      ensures gs.team == Blue ==> t == gs.blueTime
      ensures gs.team == Red ==> t == gs.redTime
    {
      if gs.team == Red then gs.redTime else gs.blueTime
    }

    /**
     * What run_turn does before handing the state to the player: the turn is
     * recorded, the acting team is paid its passive metal from round 2 on, and
     * each of its robots is refreshed, with a charge on its own terraformed tiles.
     */
    method BeginTurn(turn: int)
      requires gs.Valid()
      modifies gs`turn, gs`redMetal, gs`blueMetal, gs.Ally()
      ensures gs.turn == turn
      ensures gs.Metal() == old(gs.Metal()) + if turn > 1 then METAL_GAINED_PER_TURN else 0
      ensures gs.team == Blue ==> gs.redMetal == old(gs.redMetal)
      ensures gs.team == Red ==> gs.blueMetal == old(gs.blueMetal)
      ensures forall i :: 0 <= i < |gs.Ally()| ==> Refreshed(gs.Ally()[i], OnOwnTile(gs.board, gs.team, gs.Ally()[i]))
    {
      gs.turn := turn;
      if turn > 1 {
        if gs.team == Red {
          gs.redMetal := gs.redMetal + METAL_GAINED_PER_TURN;
        } else {
          gs.blueMetal := gs.blueMetal + METAL_GAINED_PER_TURN;
        }
      }
      assert NoDup(gs.red) && NoDup(gs.blue);
      RefreshRobots(gs.Ally(), gs.board, gs.team);
    }

    /**
     * What run_turn does once the player's thread is back. On a timeout the
     * clocks stay as they were and the log gets a placeholder record (-1 for the
     * clock and the metal) with the turn's buffers left alone; otherwise the
     * acting team's clock is charged the turn's duration and the log gets a
     * record of the turn carrying the buffers.
     */
    method EndTurn(turn: int, report: TurnReport) returns (timeout: bool)
      modifies gs`redTime, gs`blueTime, gs.replay
      ensures timeout <==> TimedOut(report, old(TimeLeft()))
      ensures timeout ==> gs.redTime == old(gs.redTime) && gs.blueTime == old(gs.blueTime)
      ensures !timeout ==> TimeLeft() == old(TimeLeft()) - report.duration
      ensures gs.team == Blue ==> gs.redTime == old(gs.redTime)
      ensures gs.team == Red ==> gs.blueTime == old(gs.blueTime)
      ensures |gs.replay.turns| == |old(gs.replay.turns)| + 1
      ensures gs.replay.turns[..|old(gs.replay.turns)|] == old(gs.replay.turns)
      ensures timeout ==>
        gs.replay.turns[|old(gs.replay.turns)|] == Turn(TeamName(gs.team), turn, -1, |gs.Ally()|, -1, [], [], [])
      ensures !timeout ==>
        gs.replay.turns[|old(gs.replay.turns)|] == Turn(TeamName(gs.team), turn, gs.Metal(), |gs.Ally()|, TimeLeft(),
                                                        old(gs.replay.explored), old(gs.replay.terraformed), old(gs.replay.robotChanges))
      ensures gs.replay.Explored() == old(gs.replay.Explored()) && gs.replay.Terraformed() == old(gs.replay.Terraformed())
      ensures gs.replay.Changes() == old(gs.replay.Changes())
      ensures gs.replay.winner == old(gs.replay.winner)
    {
      timeout := report.stillRunning || report.duration >= TimeLeft();
      if timeout {
        gs.replay.AddTurn(TeamName(gs.team), -1, |gs.Ally()|, turn, -1, true);
        return;
      }
      if gs.team == Red {
        gs.redTime := gs.redTime - report.duration;
      } else {
        gs.blueTime := gs.blueTime - report.duration;
      }
      gs.replay.AddTurn(TeamName(gs.team), TimeLeft(), |gs.Ally()|, turn, gs.Metal(), false);
    }

    /**
     * One turn of the acting team: the refresh, the player's turn (observed
     * only through `report`), then the clock and the log.
     */
    method RunTurn(turn: int, report: TurnReport) returns (timeout: bool)
      requires gs.Valid()
      modifies gs`turn, gs`redMetal, gs`blueMetal, gs`redTime, gs`blueTime, gs.replay, gs.Ally()
      ensures gs.Valid() && gs.turn == turn
      ensures gs.Metal() == old(gs.Metal()) + if turn > 1 then METAL_GAINED_PER_TURN else 0
      ensures gs.team == Blue ==> gs.redMetal == old(gs.redMetal)
      ensures gs.team == Red ==> gs.blueMetal == old(gs.blueMetal)
      ensures forall i :: 0 <= i < |gs.Ally()| ==> Refreshed(gs.Ally()[i], OnOwnTile(gs.board, gs.team, gs.Ally()[i]))
      ensures timeout <==> TimedOut(report, old(TimeLeft()))
      ensures !timeout ==> TimeLeft() == old(TimeLeft()) - report.duration
      ensures gs.team == Blue ==> gs.redTime == old(gs.redTime)
      ensures gs.team == Red ==> gs.blueTime == old(gs.blueTime)
      ensures |gs.replay.turns| == |old(gs.replay.turns)| + 1
      ensures gs.replay.turns[..|old(gs.replay.turns)|] == old(gs.replay.turns)
      ensures gs.replay.turns[|old(gs.replay.turns)|].team == TeamName(gs.team)
      ensures gs.replay.turns[|old(gs.replay.turns)|].turnNumber == turn
      ensures !timeout ==> gs.replay.turns[|old(gs.replay.turns)|].metal == gs.Metal()
      ensures gs.replay.winner == old(gs.replay.winner)
    {
      BeginTurn(turn);
      ghost var ally := gs.Ally();
      timeout := EndTurn(turn, report);
      assert gs.Ally() == ally;
    }

    /** A team's standing as run_game reads it after the last round. */
    ghost function FinalScore(t: Team): Score
      requires gs.board.Valid()
      reads this, gs, gs.board, gs.board.tiles
    {
      if t == Red then Score(Tally(gs.board, Red, gs.board.height), |gs.red|, gs.redMetal, gs.redTime)
      else Score(Tally(gs.board, Blue, gs.board.height), |gs.blue|, gs.blueMetal, gs.blueTime)
    }

    /**
     * The end-of-game scan of the board, row by row: a tile terraformed for
     * blue counts for blue, else one terraformed for red counts for red.
     */
    method CountTerraformed() returns (redTiles: int, blueTiles: int)
      requires gs.board.Valid()
      ensures redTiles == Tally(gs.board, Red, gs.board.height)
      ensures blueTiles == Tally(gs.board, Blue, gs.board.height)
    {
      var board := gs.board;
      redTiles, blueTiles := 0, 0;
      var r := 0;
      while r < board.height
        invariant 0 <= r <= board.height
        invariant redTiles == Tally(board, Red, r) && blueTiles == Tally(board, Blue, r)
      {
        var c := 0;
        while c < board.width
          invariant 0 <= c <= board.width
          invariant redTiles == Tally(board, Red, r) + RowTally(board, Red, r, c)
          invariant blueTiles == Tally(board, Blue, r) + RowTally(board, Blue, r, c)
        {
          if board.IsTerraformed(Blue, r, c) == Some(true) {
            blueTiles := blueTiles + 1;
          } else if board.IsTerraformed(Red, r, c) == Some(true) {
            redTiles := redTiles + 1;
          }
          c := c + 1;
        }
        r := r + 1;
      }
    }

    /**
     * One round of run_game's loop: blue's turn, then red's unless blue timed
     * out. The result names the team that timed out, if any.
     */
    method PlayRound(turn: int, round: Round) returns (loser: Option<Team>)
      requires gs.Valid()
      modifies gs`team, gs`turn, gs`redMetal, gs`blueMetal, gs`redTime, gs`blueTime, gs.replay, gs.red, gs.blue
      ensures gs.Valid()
      ensures loser == Some(Blue) <==> TimedOut(round.blue, old(gs.blueTime))
      ensures loser == Some(Red) <==> !TimedOut(round.blue, old(gs.blueTime)) && TimedOut(round.red, old(gs.redTime))
      ensures loser.None? ==> gs.blueTime == old(gs.blueTime) - round.blue.duration
      ensures loser.None? ==> gs.redTime == old(gs.redTime) - round.red.duration
      ensures loser.None? ==> |gs.replay.turns| == |old(gs.replay.turns)| + 2
      ensures gs.replay.winner == old(gs.replay.winner)
    {
      gs.team := Blue;
      var timeout := RunTurn(turn, round.blue);
      if timeout {
        return Some(Blue);
      }
      gs.team := Red;
      timeout := RunTurn(turn, round.red);
      loser := if timeout then Some(Red) else None;
    }

    /** The end of run_game once every round is played: the board is scanned and the standings decide. */
    method Finish()
      requires gs.Valid()
      modifies gs.replay
      ensures gs.replay.winner == Some(TeamName(DecideWinner(FinalScore(Red), FinalScore(Blue))))
      ensures gs.replay.turns == old(gs.replay.turns)
    {
      var redTiles, blueTiles := CountTerraformed();
      var red := Score(redTiles, |gs.red|, gs.redMetal, gs.redTime);
      var blue := Score(blueTiles, |gs.blue|, gs.blueMetal, gs.blueTime);
      gs.replay.SetWinner(TeamName(DecideWinner(red, blue)));
    }

    /**
     * The whole match. The first team to overrun its clock loses at once;
     * when neither does, all NUM_TURNS rounds are logged and the final
     * standings decide, red winning a complete tie.
     */
    method RunGame(rounds: seq<Round>)
      requires gs.Valid() && |rounds| == NUM_TURNS
      modifies gs`team, gs`turn, gs`redMetal, gs`blueMetal, gs`redTime, gs`blueTime, gs.replay, gs.red, gs.blue
      ensures gs.Valid() && gs.replay.winner.Some?
      ensures FirstTimeout(rounds, 0, old(gs.redTime), old(gs.blueTime)) == Some(Blue) ==> gs.replay.winner == Some("red")
      ensures FirstTimeout(rounds, 0, old(gs.redTime), old(gs.blueTime)) == Some(Red) ==> gs.replay.winner == Some("blue")
      ensures FirstTimeout(rounds, 0, old(gs.redTime), old(gs.blueTime)) == None ==>
        && |gs.replay.turns| == |old(gs.replay.turns)| + 2 * NUM_TURNS
        && gs.replay.winner == Some(TeamName(DecideWinner(FinalScore(Red), FinalScore(Blue))))
    {
      var turn := 1;
      while turn <= NUM_TURNS
        invariant 1 <= turn <= NUM_TURNS + 1
        invariant gs.Valid()
        invariant FirstTimeout(rounds, 0, old(gs.redTime), old(gs.blueTime)) == FirstTimeout(rounds, turn - 1, gs.redTime, gs.blueTime)
        invariant |gs.replay.turns| == |old(gs.replay.turns)| + 2 * (turn - 1)
      {
        RoundOutcome(rounds, turn - 1, gs.redTime, gs.blueTime);
        var loser := PlayRound(turn, rounds[turn - 1]);
        match loser {
          case Some(Blue) =>
            gs.replay.SetWinner("red");
            return;
          case Some(Red) =>
            gs.replay.SetWinner("blue");
            return;
          case None =>
        }
        turn := turn + 1;
      }
      Finish();
    }
  }
}
