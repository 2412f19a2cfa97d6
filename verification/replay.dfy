/**
 * The event log of a game (class Replay of src/replay.py): three buffers that
 * the rules engine extends during a turn, flushed into one Turn record at the
 * end of the turn, plus the game's header and its winner.
 */
module Replays {
  import opened Constants
  import opened Errors
  import opened Grid
  import opened Info
  import Maps
  import Robots

  /** One robot event: name, position ((-1, -1) when removed), type tag, battery, team name. */
  datatype RobotChange = RobotChange(name: string, row: int, col: int, kindTag: string, battery: int, teamTag: string)

  /** One turn's record. */
  datatype Turn = Turn(
    team: string,
    turnNumber: int,
    metal: int,
    numRobots: int,
    timeLeft: int,
    explored: seq<Pos>,
    terraformed: seq<Pos>,
    robotChanges: seq<RobotChange>)

  /** The one-letter tag a robot type is logged under. */
  function KindTag(kind: RobotType): string {
    match kind
    case Explorer => "e"
    case Miner => "m"
    case Terraformer => "t"
  }

  /** The name a team is logged under. */
  function TeamName(team: Team): string {
    match team
    case Red => "red"
    case Blue => "blue"
  }

  /** Reads a type tag back, as a replay viewer does. */
  function KindOfTag(tag: string): Option<RobotType> {
    if tag == "e" then Some(Explorer)
    else if tag == "m" then Some(Miner)
    else if tag == "t" then Some(Terraformer)
    else None
  }

  /** Reads a team name back. */
  function TeamOfName(s: string): Option<Team> {
    if s == "red" then Some(Red) else if s == "blue" then Some(Blue) else None
  }

  /** A type tag is one letter and reads back as its type, so different types get different tags. */
  lemma KindTagReadsBack(kind: RobotType)
    ensures |KindTag(kind)| == 1 && KindOfTag(KindTag(kind)) == Some(kind)
  {
    match kind
    case Explorer =>
    case Miner => assert KindTag(kind) != "e";
    case Terraformer => assert KindTag(kind) != "e" && KindTag(kind) != "m";
  }

  /** A team name reads back as its team. */
  lemma TeamNameReadsBack(team: Team)
    ensures TeamOfName(TeamName(team)) == Some(team)
  {
    if team == Blue {
      assert TeamName(team) != "red";
    }
  }

  /** What one logged robot event describes of a robot snapshot. */
  function ChangeOf(info: RobotInfo, terminate: bool): (e: RobotChange)
    ensures e.name == info.name && e.battery == info.battery
    ensures terminate ==> e.row == -1 && e.col == -1
    ensures !terminate ==> e.row == info.row && e.col == info.col
  {
    RobotChange(info.name, if terminate then -1 else info.row, if terminate then -1 else info.col,
                KindTag(info.kind), info.battery, TeamName(info.team))
  }

  /** A logged event names the robot's type and team in a form that reads back. */
  lemma ChangeOfReadsBack(info: RobotInfo, terminate: bool)
    ensures KindOfTag(ChangeOf(info, terminate).kindTag) == Some(info.kind)
    ensures TeamOfName(ChangeOf(info, terminate).teamTag) == Some(info.team)
  {
    KindTagReadsBack(info.kind);
    TeamNameReadsBack(info.team);
  }

  /** Every explored cell recorded by `turns`, in order. */
  function AllExplored(turns: seq<Turn>): seq<Pos> {
    if turns == [] then [] else AllExplored(turns[..|turns| - 1]) + turns[|turns| - 1].explored
  }

  /** Every terraformed cell recorded by `turns`, in order. */
  function AllTerraformed(turns: seq<Turn>): seq<Pos> {
    if turns == [] then [] else AllTerraformed(turns[..|turns| - 1]) + turns[|turns| - 1].terraformed
  }

  /** Every robot event recorded by `turns`, in order. */
  function AllChanges(turns: seq<Turn>): seq<RobotChange> {
    if turns == [] then [] else AllChanges(turns[..|turns| - 1]) + turns[|turns| - 1].robotChanges
  }

  /** Appending a turn appends its lists to the game-long ones. */
  lemma AllAppend(turns: seq<Turn>, t: Turn)
    ensures AllExplored(turns + [t]) == AllExplored(turns) + t.explored
    ensures AllTerraformed(turns + [t]) == AllTerraformed(turns) + t.terraformed
    ensures AllChanges(turns + [t]) == AllChanges(turns) + t.robotChanges
  {
    assert (turns + [t])[..|turns|] == turns;
  }

  /** The log of a game. */
  class Replay {
    const gameName: string
    const mapName: string
    const mapHeight: int
    const mapWidth: int
    const redBot: string
    const blueBot: string
    const initialMetal: int
    const initial: Maps.InitialLists
    var winner: Option<string>
    var turns: seq<Turn>
    var explored: seq<Pos>
    var terraformed: seq<Pos>
    var robotChanges: seq<RobotChange>

    /** Everything logged so far, flushed or not: the game-long explored list. */
    function Explored(): seq<Pos>
      reads this
    {
      AllExplored(turns) + explored
    }

    function Terraformed(): seq<Pos>
      reads this
    {
      AllTerraformed(turns) + terraformed
    }

    function Changes(): seq<RobotChange>
      reads this
    {
      AllChanges(turns) + robotChanges
    }

    /** A new log: the header, no winner yet, no turns and empty buffers. */
    constructor (gameName: string, mapName: string, mapHeight: int, mapWidth: int, redBot: string,
                 blueBot: string, initialMetal: int, initial: Maps.InitialLists)
      ensures this.gameName == gameName && this.mapName == mapName
      ensures this.mapHeight == mapHeight && this.mapWidth == mapWidth
      ensures this.redBot == redBot && this.blueBot == blueBot && this.initialMetal == initialMetal
      ensures this.initial == initial
      ensures winner == None && turns == [] && explored == [] && terraformed == [] && robotChanges == []
    {
      this.gameName, this.mapName := gameName, mapName;
      this.mapHeight, this.mapWidth := mapHeight, mapWidth;
      this.redBot, this.blueBot := redBot, blueBot;
      this.initialMetal := initialMetal;
      this.initial := initial;
      winner := None;
      turns := [];
      explored, terraformed, robotChanges := [], [], [];
    }

    method AddExploredTiles(tiles: seq<Pos>)
      modifies this
      ensures explored == old(explored) + tiles
      ensures Explored() == old(Explored()) + tiles
      ensures terraformed == old(terraformed) && robotChanges == old(robotChanges)
      ensures turns == old(turns) && winner == old(winner)
    {
      explored := explored + tiles;
    }

    method AddTerraformedTiles(tiles: seq<Pos>)
      modifies this
      ensures terraformed == old(terraformed) + tiles
      ensures Terraformed() == old(Terraformed()) + tiles
      ensures explored == old(explored) && robotChanges == old(robotChanges)
      ensures turns == old(turns) && winner == old(winner)
    {
      terraformed := terraformed + tiles;
    }

    /** Logs one event about `robot`: its position, or (-1, -1) when it is being removed. */
    method AddRobotChanges(robot: Robots.Robot, terminate: bool)
      modifies this
      ensures robotChanges == old(robotChanges) + [ChangeOf(robot.Info(), terminate)]
      ensures Changes() == old(Changes()) + [ChangeOf(robot.Info(), terminate)]
      ensures explored == old(explored) && terraformed == old(terraformed)
      ensures turns == old(turns) && winner == old(winner)
    {
      var row, col := robot.row, robot.col;
      if terminate {
        row, col := -1, -1;
      }
      robotChanges := robotChanges + [RobotChange(robot.name, row, col, KindTag(robot.kind), robot.battery, TeamName(robot.team))];
    }

    /**
     * Closes a turn: one record is appended. A timed-out turn records empty lists
     * and leaves the buffers alone; otherwise the record carries the buffers,
     * which then start again empty, so nothing logged is lost or repeated.
     */
    method AddTurn(team: string, timeLeft: int, numRobots: int, turnNumber: int, metal: int, timeout: bool)
      modifies this
      ensures |turns| == |old(turns)| + 1 && turns[..|old(turns)|] == old(turns)
      ensures timeout ==>
        && turns[|old(turns)|] == Turn(team, turnNumber, metal, numRobots, timeLeft, [], [], [])
        && explored == old(explored) && terraformed == old(terraformed) && robotChanges == old(robotChanges)
      ensures !timeout ==>
        && turns[|old(turns)|] == Turn(team, turnNumber, metal, numRobots, timeLeft,
                                       old(explored), old(terraformed), old(robotChanges))
        && explored == [] && terraformed == [] && robotChanges == []
      ensures Explored() == old(Explored()) && Terraformed() == old(Terraformed()) && Changes() == old(Changes())
      ensures winner == old(winner)
    {
      if timeout {
        var turn := Turn(team, turnNumber, metal, numRobots, timeLeft, [], [], []);
        AllAppend(turns, turn);
        turns := turns + [turn];
        return;
      }
      var turn := Turn(team, turnNumber, metal, numRobots, timeLeft, explored, terraformed, robotChanges);
      AllAppend(turns, turn);
      turns := turns + [turn];
      explored, terraformed, robotChanges := [], [], [];
    }

    method SetWinner(team: string)
      modifies this
      ensures winner == Some(team)
      ensures turns == old(turns) && explored == old(explored) && terraformed == old(terraformed)
      ensures robotChanges == old(robotChanges)
    {
      winner := Some(team);
    }
  }
}
