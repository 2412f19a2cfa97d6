/**
 * Robots (src/robot.py): the shared construction counter that names them, and
 * the robot object with its position, battery and once-per-turn flags. The
 * three Python subclasses differ only in their action cost, their action check
 * and their action, so one class carries the kind and dispatches on it.
 */
module Robots {
  import opened Constants
  import opened Errors
  import opened Grid
  import opened Tiles
  import opened Info
  import opened Maps

  /** The decimal digit character for d. */
  function DigitChar(d: nat): (ch: char)
    requires d < 10
    ensures '0' <= ch <= '9'
    ensures ch as int - '0' as int == d
  {
    ('0' as int + d) as char
  }

  /** A string of decimal digits only. */
  predicate AllDigits(s: string) {
    forall k :: 0 <= k < |s| ==> '0' <= s[k] <= '9'
  }

  /** The decimal numeral of n, as Python's str(n) writes it: no sign, no leading zeros. */
  function Decimal(n: nat): (s: string)
    ensures |s| >= 1 && AllDigits(s)
    ensures n >= 10 ==> |s| >= 2
    decreases n
  {
    if n < 10 then [DigitChar(n)] else Decimal(n / 10) + [DigitChar(n % 10)]
  }

  /** The number a string of decimal digits denotes. */
  function Value(s: string): nat
    requires AllDigits(s)
  {
    if s == [] then 0 else Value(s[..|s| - 1]) * 10 + (s[|s| - 1] as int - '0' as int)
  }

  /** Reading a numeral back gives the number. */
  lemma {:induction false} DecimalRoundTrip(n: nat)
    ensures Value(Decimal(n)) == n
    decreases n
  {
    if n >= 10 {
      var s := Decimal(n);
      assert s[..|s| - 1] == Decimal(n / 10);
      DecimalRoundTrip(n / 10);
    }
  }

  /** The name a robot built when the counter reads k receives. */
  function RobotName(k: nat): (s: string)
    ensures |s| > 6 && s[..6] == "robot_"
    ensures AllDigits(s[6..]) && Value(s[6..]) == k
  {
    DecimalRoundTrip(k);
    assert ("robot_" + Decimal(k))[6..] == Decimal(k);
    "robot_" + Decimal(k)
  }

  /** Different counter readings give different names. */
  lemma RobotNameInjective(a: nat, b: nat)
    ensures RobotName(a) == RobotName(b) ==> a == b
  {
    if RobotName(a) == RobotName(b) {
      assert Decimal(a) == RobotName(a)[6..];
      assert Decimal(b) == RobotName(b)[6..];
      DecimalRoundTrip(a);
      DecimalRoundTrip(b);
    }
  }

  /** Robot.counter, the class-wide count shared by every robot construction; it starts at 1. */
  class RobotCounter {
    var count: nat

    constructor ()
      ensures count == 1
    {
      count := 1;
    }

    /** count() followed by increment(): the reading before the step. */
    method Next() returns (k: nat)
      modifies this
      ensures k == old(count) && count == old(count) + 1
    {
      k := count;
      count := count + 1;
    }
  }

  /** The action cost each subclass sets, whatever its constructor is passed. */
  function ActionCost(kind: RobotType): (cost: nat)
    ensures kind == Explorer ==> cost == EXPLORER_ACTION_COST
    ensures kind == Miner ==> cost == MINER_ACTION_COST
    ensures kind == Terraformer ==> cost == TERRAFORMER_ACTION_COST
    ensures 0 < cost <= INIT_BATTERY
  {
    match kind
    case Miner => MINER_ACTION_COST
    case Terraformer => TERRAFORMER_ACTION_COST
    case Explorer => EXPLORER_ACTION_COST
  }

  /** Some on-map cell of the 3x3 block around (r, c) is fogged for `team`. */
  ghost predicate FogNearby(m: Map, r: int, c: int, team: Team)
    requires m.Valid()
    reads m, m.tiles
  {
    exists i, j :: m.InBounds(i, j) && Near((r, c), (i, j)) && m.tiles[i, j].IsFogged(team)
  }

  /** What an action hands back: a miner's yield list, a terraformer's cell, an explorer's cells (None off the map). */
  datatype ActionOutput =
    | Mined(amounts: seq<int>)
    | Terraformed(cells: seq<Pos>)
    | Explored(found: Option<seq<Pos>>)

  class Robot {
    const name: string
    ghost const id: nat
    const kind: RobotType
    const team: Team
    const height: int
    const width: int
    const actionCost: int
    var row: int
    var col: int
    var moved: bool
    var acted: bool
    var battery: int

    /** The cost comes from the kind, and the battery is within its cap (the name is fixed by the constructor). */
    ghost predicate Valid()
      reads this
    {
      && actionCost == ActionCost(kind)
      && 0 <= battery <= INIT_BATTERY
    }

    /**
     * A new robot of `kind` at (row, col): named from the counter, which then
     * steps; it starts with a full battery and counts as having moved and acted.
     */
    constructor (row: int, col: int, team: Team, height: int, width: int, kind: RobotType, actionCostArg: int,
                 counter: RobotCounter)
      modifies counter
      ensures Valid()
      ensures id == old(counter.count) && counter.count == old(counter.count) + 1
      ensures name == RobotName(old(counter.count))
      ensures this.kind == kind && this.team == team && this.row == row && this.col == col
      ensures this.height == height && this.width == width
      ensures moved && acted && battery == INIT_BATTERY
      ensures actionCost == ActionCost(kind)
    {
      var k := counter.Next();
      this.name := RobotName(k);
      this.id := k;
      this.kind := kind;
      this.team := team;
      this.row, this.col := row, col;
      this.moved, this.acted := true, true;
      this.height, this.width := height, width;
      this.battery := INIT_BATTERY;
      this.actionCost := ActionCost(kind);
    }

    /** get_coord: the cell the robot stands on. */
    function Coord(): (p: Pos)
      reads this
      ensures p.0 == row && p.1 == col
    {
      (row, col)
    }

    /** The snapshot handed to players. */
    function Info(): (r: RobotInfo)
      reads this
      ensures r.name == name && r.kind == kind && r.team == team
      ensures r.row == row && r.col == col && r.battery == battery
      ensures r.moved == moved && r.acted == acted && r.actionCost == actionCost
      ensures Valid() ==> 0 <= r.battery <= INIT_BATTERY && r.actionCost == ActionCost(r.kind)
    {
      RobotInfo(battery, acted, moved, actionCost, row, col, team, name, kind)
    }

    method SetBattery(b: int)
      modifies this
      ensures battery == b
      ensures row == old(row) && col == old(col) && moved == old(moved) && acted == old(acted)
    {
      battery := b;
    }

    /** Adds `charge` to the battery, capped at INIT_BATTERY. */
    method Charge(charge: int)
      modifies this
      ensures battery == if old(battery) + charge < INIT_BATTERY then old(battery) + charge else INIT_BATTERY
      ensures battery <= INIT_BATTERY
      ensures charge >= 0 && old(battery) <= INIT_BATTERY ==> battery >= old(battery)
      ensures old(Valid()) && charge >= 0 ==> Valid()
      ensures row == old(row) && col == old(col) && moved == old(moved) && acted == old(acted)
    {
      battery := battery + charge;
      if battery > INIT_BATTERY {
        battery := INIT_BATTERY;
      }
    }

    method ResetMoveStatus()
      modifies this
      ensures !moved
      ensures row == old(row) && col == old(col) && battery == old(battery) && acted == old(acted)
    {
      moved := false;
    }

    method ResetActedStatus()
      modifies this
      ensures !acted
      ensures row == old(row) && col == old(col) && battery == old(battery) && moved == old(moved)
    {
      acted := false;
    }

    /**
     * One king move: an internal error for no direction or a destination off
     * the robot's grid; false, with nothing changed, once it has moved this
     * turn; otherwise it moves by exactly the direction's offset.
     */
    method MakeMove(d: Option<Direction>) returns (res: Result<bool>)
      modifies this
      ensures d.None? ==> res == Err(Internal(IllegalMoveFault))
      ensures d.Some? && !(0 <= old(row) + d.value.DRow() < height && 0 <= old(col) + d.value.DCol() < width) ==>
        res == Err(Internal(IllegalMoveFault))
      ensures res.Err? || !res.value ==> row == old(row) && col == old(col) && moved == old(moved)
      ensures d.Some? && 0 <= old(row) + d.value.DRow() < height && 0 <= old(col) + d.value.DCol() < width ==>
        && res == Ok(!old(moved))
        && (!old(moved) ==> moved && (row, col) == Move((old(row), old(col)), d.value))
      ensures battery == old(battery) && acted == old(acted)
    {
      if d.None? {
        return Err(Internal(IllegalMoveFault));
      }
      var newRow, newCol := row + d.value.DRow(), col + d.value.DCol();
      if newRow < 0 || newRow >= height || newCol < 0 || newCol >= width {
        return Err(Internal(IllegalMoveFault));
      } else if moved {
        return Ok(false);
      }
      moved := true;
      row := newRow;
      col := newCol;
      return Ok(true);
    }

    /** assert_ready_to_act: refused once it has acted, or with less battery than its action costs. */
    function ReadyToAct(): (o: Outcome)
      reads this
      ensures o == Pass <==> !acted && battery >= actionCost
      ensures o.Fail? ==> o.error == User(IllegalAction)
    {
      if acted then Fail(User(IllegalAction))
      else if battery < actionCost then Fail(User(IllegalAction))
      else Pass
    }

    /**
     * The check each kind runs before acting: ready to act, and then a miner
     * needs a visible mining tile underfoot, a terraformer a visible
     * terraformable tile whose level can still take one step for its team, an
     * explorer some fogged on-map cell in the 3x3 block around it.
     */
    ghost function CanTakeAction(m: Map): Outcome
      requires m.Valid()
      reads this, m, m.tiles
    {
      if ReadyToAct().Fail? then ReadyToAct()
      else match kind
        case Miner =>
          if m.GetTileState(row, col, team) != Mining then Fail(User(IllegalAction)) else Pass
        case Terraformer =>
          if m.GetTileState(row, col, team) != Terraformable then Fail(User(IllegalAction))
          else if !(-TERRAFORM_MAX <= m.tiles[row, col].terraform + TerraformStep(team) <= TERRAFORM_MAX) then
            Fail(User(IllegalAction))
          else Pass
        case Explorer =>
          if !FogNearby(m, row, col, team) then Fail(User(IllegalAction)) else Pass
    }

    /** The explorer's scan of the 3x3 block for a fogged on-map cell. */
    method HasFogNearby(m: Map) returns (hasFog: bool)
      requires m.Valid()
      ensures hasFog <==> FogNearby(m, row, col, team)
    {
      hasFog := false;
      for dx := -1 to 2
        invariant hasFog <==> exists i, j ::
          m.InBounds(i, j) && row - 1 <= i < row + dx && col - 1 <= j <= col + 1 && m.tiles[i, j].IsFogged(team)
      {
        for dy := -1 to 2
          invariant hasFog <==> exists i, j ::
            && m.InBounds(i, j) && m.tiles[i, j].IsFogged(team)
            && ((row - 1 <= i < row + dx && col - 1 <= j <= col + 1) || (i == row + dx && col - 1 <= j < col + dy))
        {
          var nx, ny := row + dx, col + dy;
          if 0 <= nx < m.height && 0 <= ny < m.width {
            if m.tiles[nx, ny].IsFogged(team) {
              hasFog := true;
            }
          }
        }
      }
    }

    /** assert_can_take_action for this robot's kind. */
    method AssertCanTakeAction(m: Map) returns (o: Outcome)
      requires m.Valid()
      ensures o == CanTakeAction(m)
      ensures o.Fail? ==> o.error == User(IllegalAction)
    {
      o := ReadyToAct();
      if o.Fail? {
        return;
      }
      match kind
      case Miner =>
        if m.GetTileState(row, col, team) != Mining {
          return Fail(User(IllegalAction));
        }
      case Terraformer =>
        if m.GetTileState(row, col, team) != Terraformable {
          return Fail(User(IllegalAction));
        }
        var newVal := m.tiles[row, col].terraform;
        if team == Blue {
          newVal := newVal + 1;
        } else {
          newVal := newVal - 1;
        }
        if !(-TERRAFORM_MAX <= newVal <= TERRAFORM_MAX) {
          return Fail(User(IllegalAction));
        }
      case Explorer =>
        var hasFog := HasFogNearby(m);
        if !hasFog {
          return Fail(User(IllegalAction));
        }
    }
  
    /**
     * take_action: the kind's check first, refusing with nothing changed; then
     * the robot is marked as having acted and pays its cost, and a miner reads
     * the yield underfoot, a terraformer steps the level underfoot and reports
     * its own cell, an explorer sweeps the 3x3 block around it.
     */
    method TakeAction(m: Map) returns (res: Result<ActionOutput>)
      requires m.Valid()
      modifies this, m.tiles
      ensures m.Valid()
      ensures old(CanTakeAction(m)).Fail? ==>
        res == Err(old(CanTakeAction(m)).error) && unchanged(this) && unchanged(m.tiles)
      ensures old(CanTakeAction(m)) == Pass ==>
        && acted && battery == old(battery) - actionCost
        && row == old(row) && col == old(col) && moved == old(moved)
      ensures old(Valid()) ==> Valid()
      ensures old(CanTakeAction(m)) == Pass && kind == Miner ==>
        res == Ok(Mined([old(m.tiles[row, col]).mining])) && unchanged(m.tiles)
      ensures old(CanTakeAction(m)) == Pass && kind == Terraformer ==>
        && res == Ok(Terraformed([(row, col)]))
        && old(m.tiles[row, col]).Terraform(team).1
        && m.tiles[row, col] == old(m.tiles[row, col]).Terraform(team).0
        && forall i, j {:trigger m.tiles[i, j]} :: m.InBounds(i, j) && (i, j) != (row, col) ==> m.tiles[i, j] == old(m.tiles[i, j])
      ensures old(CanTakeAction(m)) == Pass && kind == Explorer && !m.InBounds(row, col) ==>
        res == Ok(Explored(None)) && unchanged(m.tiles)
      ensures
        && old(CanTakeAction(m)) == Pass && kind == Explorer && m.InBounds(row, col)
        && (old(m.tiles[row, col]).IsFogged(team) || old(m.tiles[row, col]).state == Impassable)
        ==> res == Err(Internal(ExploreFault)) && unchanged(m.tiles)
      ensures
        && old(CanTakeAction(m)) == Pass && kind == Explorer && m.InBounds(row, col)
        && !old(m.tiles[row, col]).IsFogged(team) && old(m.tiles[row, col]).state != Impassable
        ==>
          && res == Ok(Explored(Some(old(m.FoggedBefore(row, col, team, 2, -1)))))
          && |old(m.FoggedBefore(row, col, team, 2, -1))| > 0
          && forall i, j {:trigger m.tiles[i, j]} :: m.InBounds(i, j) ==>
               m.tiles[i, j] == if Near((row, col), (i, j)) then old(m.tiles[i, j]).Explore(team).0 else old(m.tiles[i, j])
    {
      var check := AssertCanTakeAction(m);
      if check.Fail? {
        return Err(check.error);
      }
      if kind == Explorer && m.InBounds(row, col) {
        ExplorerFindsFog(m);
      }
      acted := true;
      battery := battery - actionCost;
      match kind
      case Miner =>
        var mined := m.Mine(row, col, team);
        if mined.Err? {
          return Err(mined.error);
        }
        return Ok(Mined(mined.value));
      case Terraformer =>
        var stepped := m.Terraform(row, col, team);
        if stepped.Err? {
          return Err(stepped.error);
        }
        assert -TERRAFORM_MAX <= m.tiles[row, col].terraform <= TERRAFORM_MAX;
        return Ok(Terraformed([(row, col)]));
      case Explorer =>
        var swept := m.Explore(row, col, team);
        if swept.Err? {
          return Err(swept.error);
        }
        return Ok(Explored(swept.value));
    }

    /** An explorer that passes its check will report at least one cell. */
    lemma ExplorerFindsFog(m: Map)
      requires m.Valid() && m.InBounds(row, col)
      requires FogNearby(m, row, col, team)
      ensures |m.FoggedBefore(row, col, team, 2, -1)| > 0
    {
      var i, j :| m.InBounds(i, j) && Near((row, col), (i, j)) && m.tiles[i, j].IsFogged(team);
      m.FoggedBeforeMembers(row, col, team, 2, -1);
      assert (i, j) in m.FoggedBefore(row, col, team, 2, -1);
    }
  }
}
