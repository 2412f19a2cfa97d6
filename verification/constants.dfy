/** Game-wide enumerations and tuning constants (src/game_constants.py). */
module Constants {

  /** The two teams. */
  datatype Team = Red | Blue

  /** The team that is not `t`. */
  function Other(t: Team): (o: Team)
    ensures o != t
  {
    if t == Red then Blue else Red
  }

  /** The enumeration value of a team (RED = 1, BLUE = 2). */
  function TeamValue(t: Team): (v: int)
    ensures v == 1 || v == 2
  {
    if t == Red then 1 else 2
  }

  /** What a tile is, as seen by one team; ILLEGAL is "off the map or fogged". */
  datatype TileState = Terraformable | Mining | Impassable | Illegal

  /** The eight king moves, each an offset (row, col). */
  datatype Direction = Up | UpRight | Right | DownRight | Down | DownLeft | Left | UpLeft
  {
    function DRow(): int {
      match this
      case Up => -1
      case UpRight => -1
      case Right => 0
      case DownRight => 1
      case Down => 1
      case DownLeft => 1
      case Left => 0
      case UpLeft => -1
    }

    function DCol(): int {
      match this
      case Up => 0
      case UpRight => 1
      case Right => 1
      case DownRight => 1
      case Down => 0
      case DownLeft => -1
      case Left => -1
      case UpLeft => -1
    }
  }

  /** The directions in the order the enumeration lists them (the order BFS tries them). */
  const DIRECTIONS: seq<Direction> := [Up, UpRight, Right, DownRight, Down, DownLeft, Left, UpLeft]

  /** Where `d` stands in DIRECTIONS. */
  function DirectionIndex(d: Direction): (i: nat)
    ensures i < |DIRECTIONS| && DIRECTIONS[i] == d
  {
    match d
    case Up => 0 case UpRight => 1 case Right => 2 case DownRight => 3
    case Down => 4 case DownLeft => 5 case Left => 6 case UpLeft => 7
  }

  /** Every nonzero offset with both components in [-1, 1] is exactly one direction. */
  lemma DirectionsAreKingMoves()
    ensures |DIRECTIONS| == 8
    ensures forall i, j :: 0 <= i < j < 8 ==> DIRECTIONS[i] != DIRECTIONS[j]
    ensures forall d: Direction :: d in DIRECTIONS
    ensures forall d: Direction :: -1 <= d.DRow() <= 1 && -1 <= d.DCol() <= 1 && (d.DRow(), d.DCol()) != (0, 0)
    ensures forall dr, dc :: -1 <= dr <= 1 && -1 <= dc <= 1 && (dr, dc) != (0, 0) ==>
      exists d: Direction :: d.DRow() == dr && d.DCol() == dc
  {
    forall d: Direction ensures d in DIRECTIONS {
      assert DIRECTIONS[DirectionIndex(d)] == d;
    }
    forall dr, dc | -1 <= dr <= 1 && -1 <= dc <= 1 && (dr, dc) != (0, 0)
      ensures exists d: Direction :: d.DRow() == dr && d.DCol() == dc
    {
      var d :=
        if dr == -1 then (if dc == -1 then UpLeft else if dc == 0 then Up else UpRight)
        else if dr == 0 then (if dc == -1 then Left else Right)
        else (if dc == -1 then DownLeft else if dc == 0 then Down else DownRight);
      assert d.DRow() == dr && d.DCol() == dc;
    }
  }

  /** The three robot subclasses. */
  datatype RobotType = Miner | Terraformer | Explorer

  // Map constants
  const MAX_MAP_WIDTH := 48
  const MAX_MAP_HEIGHT := 48
  const NUM_TURNS := 200
  const BASE_VISIBLE_RADIUS := 1

  // Time constants (seconds; the model keeps them integral)
  const TIME_LIMIT := 10 + 1 * NUM_TURNS

  // Currency constants
  const INIT_BATTERY := 120
  const METAL_GAINED_PER_TURN := 10
  const INIT_METAL := 200
  const MINING_MIN := 5
  const MINING_MAX := 25
  const TERRAFORM_MAX := 10

  // Robot action constants
  const EXPLORER_ACTION_COST := 10
  const MINER_ACTION_COST := 20
  const TERRAFORMER_ACTION_COST := 20
  const ROBOT_CHARGE := 30
  const ROBOT_SPAWN_COST := 50
  const ROBOT_TRANSFORM_COST := 40
}
