/**
 * The rules engine (class GameState of src/game_state.py): the board, the two
 * robot registries, the shared counters (metal, time, turn, acting team) and the
 * event log. Every player request comes as a check, a boolean "can" form of
 * the check, and the operation itself; robots are found by name, collisions by
 * scanning the red registry before the blue one.
 */
module GameStates {
  import opened Constants
  import opened Errors
  import opened Grid
  import opened Tiles
  import opened Info
  import opened Maps
  import opened Robots
  import opened Replays
  import opened Registries
  import opened Search

  /** The type a spawn builds: the one asked for, and a terraformer when none is given. */
  function BuiltKind(kind: Option<RobotType>): (k: RobotType)
    ensures kind.Some? ==> k == kind.value
    ensures kind.None? ==> k == Terraformer
  {
    match kind
    case Some(k) => k
    case None => Terraformer
  }

  /** Robots in `s` have pairwise different names. */
  predicate NamesDistinct(s: seq<Robot>) {
    forall i, j :: 0 <= i < j < |s| ==> s[i].name != s[j].name
  }

  /** Robots with one counter reading are one robot. */
  ghost predicate IdsApart(a: Robot, b: Robot) {
    a.id == b.id ==> a == b
  }

  /**
   * Each registry holds a robot once, and no two registered robots share a
   * counter reading. The reading clause is used one pair at a time: it fires
   * only where a proof names the pair.
   */
  ghost predicate Distinct(reds: seq<Robot>, blues: seq<Robot>) {
    && NoDup(reds) && NoDup(blues)
    && forall a, b {:trigger IdsApart(a, b)} :: a in reds + blues && b in reds + blues ==> IdsApart(a, b)
  }

  /** A robot built after all registered ones can join either registry. */
  lemma DistinctAppend(reds: seq<Robot>, blues: seq<Robot>, nr: Robot)
    requires Distinct(reds, blues)
    requires forall x :: x in reds || x in blues ==> x.id < nr.id
    ensures Distinct(reds + [nr], blues) && Distinct(reds, blues + [nr])
  {
    assert nr !in reds && nr !in blues;
    forall a, b | a in reds + [nr] + blues && b in reds + [nr] + blues
      ensures IdsApart(a, b)
    {
      if a != nr && b != nr {
        assert IdsApart(a, b);
      }
    }
    forall a, b | a in reds + (blues + [nr]) && b in reds + (blues + [nr])
      ensures IdsApart(a, b)
    {
      if a != nr && b != nr {
        assert IdsApart(a, b);
      }
    }
  }

  /** Every robot of `s` carries the name of its counter reading. */
  ghost predicate Named(s: seq<Robot>) {
    forall r {:trigger HasName(r)} :: r in s ==> HasName(r)
  }

  /** `r` carries the name of its counter reading (used one robot at a time, like IdsApart). */
  ghost predicate HasName(r: Robot) {
    r.name == RobotName(r.id)
  }

  /** In distinct registries a name picks out one robot. */
  lemma SameNameIn(reds: seq<Robot>, blues: seq<Robot>, a: Robot, b: Robot)
    requires Distinct(reds, blues) && Named(reds) && Named(blues)
    requires a in reds || a in blues
    requires b in reds || b in blues
    requires a.name == b.name
    ensures a == b
  {
    assert HasName(a) && HasName(b);
    RobotNameInjective(a.id, b.id);
    assert a in reds + blues && b in reds + blues;
    assert IdsApart(a, b);
  }

  /**
   * The part of a pair of registries that no update in place can break: the
   * registries are distinct, every robot is named after its counter reading
   * and sits in its own team's registry, and every reading was taken before
   * `count`.
   */
  ghost predicate Sound(reds: seq<Robot>, blues: seq<Robot>, count: int) {
    && Distinct(reds, blues) && Named(reds) && Named(blues)
    && (forall r :: r in reds ==> r.team == Red)
    && (forall r :: r in blues ==> r.team == Blue)
    && (forall r :: r in reds ==> r.id < count)
    && (forall r :: r in blues ==> r.id < count)
  }

  /**
   * `r` is built for an h x w grid and its action cost is its type's; all of
   * these are fixed when the robot is built.
   */
  predicate Fits(r: Robot, h: int, w: int) {
    r.actionCost == ActionCost(r.kind) && r.height == h && r.width == w
  }

  /** Every robot of `s` fits an h x w grid. */
  ghost predicate RegistryOk(s: seq<Robot>, h: int, w: int) {
    forall r :: r in s ==> Fits(r, h, w)
  }

  /** A registry drawn from a well-formed one is well formed. */
  lemma RegistrySub(s: seq<Robot>, s': seq<Robot>, h: int, w: int)
    requires RegistryOk(s, h, w)
    requires forall y :: y in s' ==> y in s
    ensures RegistryOk(s', h, w)
  {
  }

  /** Registries drawn from sound ones, each robot at most once, are sound. */
  lemma SoundSub(reds: seq<Robot>, blues: seq<Robot>, reds': seq<Robot>, blues': seq<Robot>, count: int)
    requires Sound(reds, blues, count) && NoDup(reds') && NoDup(blues')
    requires forall y :: y in reds' ==> y in reds
    requires forall y :: y in blues' ==> y in blues
    ensures Sound(reds', blues', count)
  {
    forall a, b | a in reds' + blues' && b in reds' + blues'
      ensures IdsApart(a, b)
    {
      assert a in reds + blues && b in reds + blues;
    }
    forall r | r in reds' + blues'
      ensures HasName(r)
    {
      assert r in reds || r in blues;
    }
  }

  /** A robot built after every registered one, before the counter's reading, can join either registry. */
  lemma SoundAppend(reds: seq<Robot>, blues: seq<Robot>, count: int, count': int, nr: Robot)
    requires Sound(reds, blues, count) && count <= count'
    requires nr.name == RobotName(nr.id) && nr.id < count'
    requires forall x :: x in reds || x in blues ==> x.id < nr.id
    ensures nr.team == Red ==> Sound(reds + [nr], blues, count')
    ensures nr.team == Blue ==> Sound(reds, blues + [nr], count')
  {
    DistinctAppend(reds, blues, nr);
    forall r | r in reds + blues + [nr]
      ensures HasName(r)
    {
      if r != nr {
        assert r in reds || r in blues;
      }
    }
  }

  /** In sound registries the removal by name finds the very robot carrying the name. */
  lemma RemoveNamedFinds(reds: seq<Robot>, blues: seq<Robot>, count: int, y: Robot)
    requires Sound(reds, blues, count)
    requires y in reds || y in blues
    ensures RemoveNamed(reds, blues, y.name) == Some((Without(reds, y), Without(blues, y), y))
  {
    var r := RemoveNamed(reds, blues, y.name);
    if y in reds {
      var i :| 0 <= i < |reds| && reds[i] == y;
    } else {
      var i :| 0 <= i < |blues| && blues[i] == y;
    }
    SameNameIn(reds, blues, r.value.2, y);
  }

  /**
   * The registries move_robot leaves after a collision: the mover `x` leaves
   * its own registry (blue when `blueTeam`) and is in no other, and the
   * removal by name then takes out exactly the robot `y` it hit; the
   * registries stay sound and well formed.
   */
  lemma CollisionRegistries(reds: seq<Robot>, blues: seq<Robot>, count: int, h: int, w: int, x: Robot, y: Robot, blueTeam: bool)
    requires Sound(reds, blues, count) && RegistryOk(reds, h, w) && RegistryOk(blues, h, w)
    requires if blueTeam then x in blues else x in reds
    requires (y in reds || y in blues) && y != x
    ensures blueTeam ==> Without(reds, x) == reds
    ensures !blueTeam ==> Without(blues, x) == blues
    ensures RemoveNamed(Without(reds, x), Without(blues, x), y.name)
         == Some((Without(Without(reds, x), y), Without(Without(blues, x), y), y))
    ensures Sound(Without(Without(reds, x), y), Without(Without(blues, x), y), count)
    ensures RegistryOk(Without(Without(reds, x), y), h, w) && RegistryOk(Without(Without(blues, x), y), h, w)
  {
    var reds', blues' := Without(reds, x), Without(blues, x);
    SoundSub(reds, blues, reds', blues', count);
    RemoveNamedFinds(reds', blues', count, y);
    SoundSub(reds', blues', Without(reds', y), Without(blues', y), count);
    RegistrySub(reds, Without(reds', y), h, w);
    RegistrySub(blues, Without(blues', y), h, w);
  }

  class GameState {
    const board: Map
    const replay: Replay
    const counter: RobotCounter
    var red: seq<Robot>
    var blue: seq<Robot>
    var team: Team
    var turn: int
    var redMetal: int
    var blueMetal: int
    var redTime: int
    var blueTime: int

    /** A robot that may join team `t`'s registry: of that team and built for this board. */
    ghost predicate RobotOk(r: Robot, t: Team) {
      Fits(r, board.height, board.width) && r.team == t
    }

    /**
     * The board is well formed, every registered robot fits it and costs what
     * its type costs, each registry holds a robot once, and no two registered
     * robots share a counter reading (so none share a name), all of them taken
     * before the counter's current one.
     */
    ghost predicate Valid()
      reads this`red, this`blue, board, board.tiles, counter
    {
      && board.Valid()
      && RegistryOk(red, board.height, board.width)
      && RegistryOk(blue, board.height, board.width)
      && Sound(red, blue, counter.count)
    }

    /** A new game's state: blue acts first on turn 1, no robots, the initial metal and time for both teams. */
    constructor (board: Map, replay: Replay, counter: RobotCounter)
      requires board.Valid()
      ensures Valid()
      ensures this.board == board && this.replay == replay && this.counter == counter
      ensures red == [] && blue == [] && team == Blue && turn == 1
      ensures redMetal == INIT_METAL && blueMetal == INIT_METAL && redTime == TIME_LIMIT && blueTime == TIME_LIMIT
    {
      this.board, this.replay, this.counter := board, replay, counter;
      red, blue := [], [];
      team, turn := Blue, 1;
      redMetal, blueMetal := INIT_METAL, INIT_METAL;
      redTime, blueTime := TIME_LIMIT, TIME_LIMIT;
    }

    /** The acting team's registry. */
    function Ally(): (a: seq<Robot>)
      reads this
      ensures team == Blue ==> a == blue
      ensures team == Red ==> a == red
    {
      if team == Blue then blue else red
    }

    /** The other team's registry. */
    function Enemy(): (e: seq<Robot>)
      reads this
      ensures team == Blue ==> e == red
      ensures team == Red ==> e == blue
    {
      if team == Blue then red else blue
    }

    /**
     * The acting team's registry holds exactly its robots and the other one the
     * other team's; between them they hold every registered robot.
     */
    lemma AllyIsTeam()
      requires Valid()
      ensures forall x :: x in Ally() ==> x.team == team
      ensures forall x :: x in Enemy() ==> x.team == Other(team)
      ensures multiset(Ally()) + multiset(Enemy()) == multiset(red) + multiset(blue)
    {
    }

    /** get_metal: the acting team's balance. */
    function Metal(): (m: int)
      reads this
      ensures team == Blue ==> m == blueMetal
      ensures team == Red ==> m == redMetal
    {
      if team == Blue then blueMetal else redMetal
    }

    /** Two registered robots with one name are the same robot. */
    lemma SameName(a: Robot, b: Robot)
      requires Valid()
      requires a in red || a in blue
      requires b in red || b in blue
      requires a.name == b.name
      ensures a == b
    {
      SameNameIn(red, blue, a, b);
    }

    lemma AllyNamesDistinct()
      requires Valid()
      ensures NamesDistinct(Ally()) && NamesDistinct(Enemy())
    {
      forall i, j | 0 <= i < j < |red|
        ensures red[i].name != red[j].name
      {
        if red[i].name == red[j].name {
          SameName(red[i], red[j]);
        }
      }
      forall i, j | 0 <= i < j < |blue|
        ensures blue[i].name != blue[j].name
      {
        if blue[i].name == blue[j].name {
          SameName(blue[i], blue[j]);
        }
      }
    }

    /**
     * The robot check_for_collision reports on (r, c): none on a cell the
     * acting team cannot see, else the first red robot standing there, else
     * the first blue one.
     */
    function Occupant(r: int, c: int): (o: Option<Robot>)
      requires board.Valid()
      reads this, board, board.tiles, red, blue
      ensures board.GetTileState(r, c, team) == Illegal ==> o == None
      ensures board.GetTileState(r, c, team) != Illegal ==>
        (o == None <==> (forall i :: 0 <= i < |red| ==> red[i].Coord() != (r, c)) &&
                        (forall i :: 0 <= i < |blue| ==> blue[i].Coord() != (r, c)))
      ensures o.Some? ==> (o.value in red || o.value in blue) && o.value.Coord() == (r, c)
      ensures o.Some? && o.value !in red ==> forall i :: 0 <= i < |red| ==> red[i].Coord() != (r, c)
    {
      if board.GetTileState(r, c, team) == Illegal then None
      else match FirstAt(red, (r, c))
        case Some(i) => Some(red[i])
        case None =>
          match FirstAt(blue, (r, c))
          case Some(j) => Some(blue[j])
          case None => None
    }

    /** check_for_collision: the snapshot of the occupant of (r, c), if any. */
    method CheckForCollision(r: int, c: int) returns (hit: Option<RobotInfo>)
      requires board.Valid()
      ensures hit.None? <==> Occupant(r, c).None?
      ensures hit.Some? ==> hit.value == Occupant(r, c).value.Info()
    {
      if board.GetTileState(r, c, team) == Illegal {
        return None;
      }
      var i := 0;
      while i < |red|
        invariant 0 <= i <= |red|
        invariant forall k :: 0 <= k < i ==> red[k].Coord() != (r, c)
      {
        if red[i].Coord() == (r, c) {
          return Some(red[i].Info());
        }
        i := i + 1;
      }
      var j := 0;
      while j < |blue|
        invariant 0 <= j <= |blue|
        invariant forall k :: 0 <= k < j ==> blue[k].Coord() != (r, c)
      {
        if blue[j].Coord() == (r, c) {
          return Some(blue[j].Info());
        }
        j := j + 1;
      }
      return None;
    }

    /** A cell the acting team may path through: visible and not impassable. */
    predicate Passable(p: Pos)
      requires board.Valid()
      reads this, board, board.tiles
    {
      var s := board.GetTileState(p.0, p.1, team);
      s != Illegal && s != Impassable
    }

    /** The cells a search may step onto: passable, and unoccupied when collisions count. */
    function Walk(checkCollisions: bool): set<Pos>
      requires board.Valid()
      reads this, board, board.tiles, red, blue
    {
      set i, j | 0 <= i < board.height && 0 <= j < board.width && Passable((i, j)) &&
                 !(checkCollisions && Occupant(i, j).Some?) :: (i, j)
    }

    /** The walkable cells are exactly the passable ones, less the occupied ones when collisions count. */
    lemma WalkIs(checkCollisions: bool, p: Pos)
      requires board.Valid()
      ensures p in Walk(checkCollisions) <==> Passable(p) && !(checkCollisions && Occupant(p.0, p.1).Some?)
    {
      if Passable(p) {
        assert board.InBounds(p.0, p.1);
      }
    }

    /**
     * optimal_path: (None, -1) unless both ends are passable; otherwise the
     * breadth-first search's answer over the walkable cells, with the end as
     * the only goal. An occupied goal is never reached when collisions count.
     */
    method OptimalPath(sr: int, sc: int, er: int, ec: int, checkCollisions: bool) returns (dir: Option<Direction>, n: int)
      requires board.Valid()
      ensures !Passable((sr, sc)) || !Passable((er, ec)) ==> dir == None && n == -1
      ensures Passable((sr, sc)) && Passable((er, ec)) ==> Answers(Walk(checkCollisions), (sr, sc), {(er, ec)}, dir, n)
      ensures checkCollisions && Occupant(er, ec).Some? && (er, ec) != (sr, sc) ==> dir == None && n == -1
    {
      if !Passable((sr, sc)) || !Passable((er, ec)) {
        return None, -1;
      }
      var walk := Walk(checkCollisions);
      dir, n := ShortestPath(walk, (sr, sc), {(er, ec)});
      ShortestPathAnswers(walk, (sr, sc), {(er, ec)}, dir, n);
      if checkCollisions && Occupant(er, ec).Some? && (er, ec) != (sr, sc) {
        WalkIs(checkCollisions, (er, ec));
        UnwalkableGoal(walk, (sr, sc), (er, ec), dir, n);
      }
    }

    /** The cells terraformed for the acting team. */
    function Bases(): set<Pos>
      requires board.Valid()
      reads this, board, board.tiles
    {
      set i, j | 0 <= i < board.height && 0 <= j < board.width && board.IsTerraformed(team, i, j) == Some(true) :: (i, j)
    }

    /** The goal cells are exactly the cells terraformed for the acting team. */
    lemma BasesAre(p: Pos)
      requires board.Valid()
      ensures p in Bases() <==> board.IsTerraformed(team, p.0, p.1) == Some(true)
    {
      if board.IsTerraformed(team, p.0, p.1) == Some(true) {
        assert board.InBounds(p.0, p.1);
      }
    }

    /**
     * robot_to_base: (None, -1) for an unknown ally or one on a cell it cannot
     * path from; otherwise the breadth-first search's answer with the acting
     * team's terraformed cells as goals ((None, 0) when it already stands on one).
     */
    method RobotToBase(name: string, checkCollisions: bool) returns (dir: Option<Direction>, n: int)
      requires board.Valid()
      ensures Find(Ally(), name) == -1 ==> dir == None && n == -1
      ensures Find(Ally(), name) >= 0 && !Passable(Ally()[Find(Ally(), name)].Coord()) ==> dir == None && n == -1
      ensures Find(Ally(), name) >= 0 && Passable(Ally()[Find(Ally(), name)].Coord()) ==>
        Answers(Walk(checkCollisions), Ally()[Find(Ally(), name)].Coord(), Bases(), dir, n)
    {
      var robots := Ally();
      var k := Find(robots, name);
      if k == -1 {
        return None, -1;
      }
      var s := robots[k].Coord();
      if !Passable(s) {
        return None, -1;
      }
      var walk, bases := Walk(checkCollisions), Bases();
      dir, n := ShortestPath(walk, s, bases);
      ShortestPathAnswers(walk, s, bases, dir, n);
    }

    /**
     * The spawn check: a type is given, the cell is passable, terraformed for
     * the acting team and unoccupied, and the team can pay the spawn cost.
     */
    function SpawnCheck(kind: Option<RobotType>, r: int, c: int): (o: Outcome)
      requires board.Valid()
      reads this, board, board.tiles, red, blue
      ensures o == Pass <==>
        && kind.Some? && Passable((r, c)) && board.IsTerraformed(team, r, c) == Some(true)
        && Occupant(r, c).None? && Metal() >= ROBOT_SPAWN_COST
      ensures o.Fail? ==> o.error == User(IllegalSpawn)
    {
      if kind.None? then Fail(User(IllegalSpawn))
      else if !Passable((r, c)) then Fail(User(IllegalSpawn))
      else if board.IsTerraformed(team, r, c) != Some(true) then Fail(User(IllegalSpawn))
      else if Occupant(r, c).Some? then Fail(User(IllegalSpawn))
      else if Metal() < ROBOT_SPAWN_COST then Fail(User(IllegalSpawn))
      else Pass
    }

    method AssertCanSpawnRobot(kind: Option<RobotType>, r: int, c: int) returns (o: Outcome)
      requires board.Valid()
      ensures o == SpawnCheck(kind, r, c)
    {
      if kind.None? {
        return Fail(User(IllegalSpawn));
      }
      var state := board.GetTileState(r, c, team);
      if state == Illegal || state == Impassable {
        return Fail(User(IllegalSpawn));
      }
      if board.IsTerraformed(team, r, c) != Some(true) {
        return Fail(User(IllegalSpawn));
      }
      var hit := CheckForCollision(r, c);
      if hit.Some? {
        return Fail(User(IllegalSpawn));
      }
      if Metal() < ROBOT_SPAWN_COST {
        return Fail(User(IllegalSpawn));
      }
      return Pass;
    }

    method CanSpawnRobot(kind: Option<RobotType>, r: int, c: int) returns (ok: bool)
      requires board.Valid()
      ensures ok <==> SpawnCheck(kind, r, c) == Pass
    {
      var o := AssertCanSpawnRobot(kind, r, c);
      ok := o == Pass;
    }

    /**
     * spawn_robot, which does not run the check: the acting team pays the spawn
     * cost, a new robot with a fresh name and a full battery is added at the end
     * of its registry, and one event is logged.
     */
    method SpawnRobot(kind: Option<RobotType>, r: int, c: int) returns (info: RobotInfo, ghost nr: Robot)
      requires Valid()
      modifies this`red, this`blue, this`redMetal, this`blueMetal, counter, replay
      ensures Valid()
      ensures Metal() == old(Metal()) - ROBOT_SPAWN_COST
      ensures team == Blue ==> redMetal == old(redMetal)
      ensures team == Red ==> blueMetal == old(blueMetal)
      ensures fresh(nr) && Ally() == old(Ally()) + [nr] && Enemy() == old(Enemy())
      ensures info == nr.Info()
      ensures info == RobotInfo(INIT_BATTERY, true, true, ActionCost(BuiltKind(kind)), r, c, team,
                                RobotName(old(counter.count)), BuiltKind(kind))
      ensures forall x :: x in old(red) || x in old(blue) ==> x.name != info.name
      ensures replay.Changes() == old(replay.Changes()) + [ChangeOf(info, false)]
      ensures replay.turns == old(replay.turns) && replay.winner == old(replay.winner)
      ensures replay.explored == old(replay.explored) && replay.terraformed == old(replay.terraformed)
    {
      Pay(ROBOT_SPAWN_COST);
      var robot := AddRobot(BuiltKind(kind), r, c, INIT_BATTERY);
      info, nr := robot.Info(), robot;
    }

    /** The acting team pays `cost`; the other team's balance is untouched. */
    method Pay(cost: int)
      modifies this`redMetal, this`blueMetal
      ensures Metal() == old(Metal()) - cost
      ensures team == Blue ==> redMetal == old(redMetal)
      ensures team == Red ==> blueMetal == old(blueMetal)
    {
      if team == Blue {
        blueMetal := blueMetal - cost;
      } else {
        redMetal := redMetal - cost;
      }
    }

    /**
     * Builds a robot of `kind` at (r, c) with `battery` charge for the acting
     * team, adds it at the end of the team's registry and logs it.
     */
    method AddRobot(kind: RobotType, r: int, c: int, battery: int) returns (robot: Robot)
      requires Valid()
      modifies this`red, this`blue, counter, replay
      ensures Valid()
      ensures fresh(robot) && Ally() == old(Ally()) + [robot] && Enemy() == old(Enemy())
      ensures robot.Info() == RobotInfo(battery, true, true, ActionCost(kind), r, c, team, RobotName(old(counter.count)), kind)
      ensures forall x :: x in old(red) || x in old(blue) ==> x.name != robot.name
      ensures replay.Changes() == old(replay.Changes()) + [ChangeOf(robot.Info(), false)]
      ensures replay.turns == old(replay.turns) && replay.winner == old(replay.winner)
      ensures replay.explored == old(replay.explored) && replay.terraformed == old(replay.terraformed)
    {
      robot := new Robot(r, c, team, board.height, board.width, kind, ActionCost(kind), counter);
      robot.SetBattery(battery);
      forall x | x in red || x in blue
        ensures x.name != robot.name
      {
        assert HasName(x);
        RobotNameInjective(x.id, robot.id);
      }
      Register(robot);
      replay.AddRobotChanges(robot, false);
    }

    /** Adds `nr`, built after every registered robot, at the end of the acting team's registry. */
    method Register(nr: Robot)
      requires Valid()
      requires RobotOk(nr, team) && nr.name == RobotName(nr.id)
      requires forall x :: x in red || x in blue ==> x.id < nr.id
      requires nr.id < counter.count
      modifies this`red, this`blue
      ensures Valid()
      ensures Ally() == old(Ally()) + [nr] && Enemy() == old(Enemy())
    {
      SoundAppend(red, blue, counter.count, counter.count, nr);
      if team == Blue {
        blue := blue + [nr];
      } else {
        red := red + [nr];
      }
    }

    /** The action check: a known ally that passes its own kind's check. */
    ghost function ActionCheck(name: string): (o: Outcome)
      requires board.Valid()
      reads this, board, board.tiles, red, blue
      ensures Find(Ally(), name) == -1 ==> o == Fail(User(IllegalAction))
      ensures Find(Ally(), name) >= 0 ==> o == Ally()[Find(Ally(), name)].CanTakeAction(board)
    {
      var k := Find(Ally(), name);
      if k == -1 then Fail(User(IllegalAction)) else Ally()[k].CanTakeAction(board)
    }

    method AssertCanRobotAction(name: string) returns (o: Outcome)
      requires board.Valid()
      ensures o == ActionCheck(name)
    {
      var robots := Ally();
      var k := Find(robots, name);
      if k == -1 {
        return Fail(User(IllegalAction));
      }
      o := robots[k].AssertCanTakeAction(board);
    }

    method CanRobotAction(name: string) returns (ok: bool)
      requires board.Valid()
      ensures ok <==> ActionCheck(name) == Pass
    {
      var o := AssertCanRobotAction(name);
      ok := o == Pass;
    }
  
    /**
     * What a miner's action on cell p did to the game: the acting team was
     * credited the cell's mining value, and the board and the log are as they were.
     */
    twostate predicate Mined(p: Pos)
      reads this, board.tiles, replay
    {
      && 0 <= p.0 < board.tiles.Length0 && 0 <= p.1 < board.tiles.Length1
      && Metal() == old(Metal()) + old(board.tiles[p.0, p.1].mining)
      && (team == Blue ==> redMetal == old(redMetal)) && (team == Red ==> blueMetal == old(blueMetal))
      && unchanged(replay) && unchanged(board.tiles)
    }

    /**
     * What a terraformer's action on cell p did: the cell took one terraform
     * step for the acting team and was logged as terraformed; every other tile
     * and the rest of the log are as they were.
     */
    twostate predicate Terraformed(p: Pos)
      reads this, board.tiles, replay
    {
      && 0 <= p.0 < board.tiles.Length0 && 0 <= p.1 < board.tiles.Length1
      && board.tiles[p.0, p.1] == old(board.tiles[p.0, p.1]).Terraform(team).0
      && (forall i, j {:trigger board.tiles[i, j]} ::
            0 <= i < board.tiles.Length0 && 0 <= j < board.tiles.Length1 && (i, j) != p ==>
              board.tiles[i, j] == old(board.tiles[i, j]))
      && replay.terraformed == old(replay.terraformed) + [p]
      && replay.explored == old(replay.explored) && replay.robotChanges == old(replay.robotChanges)
      && replay.turns == old(replay.turns) && replay.winner == old(replay.winner)
    }

    /**
     * What an explorer's action on cell p did, with outcome `res`: off the
     * board, a TypeError and nothing logged; on a fogged or impassable cell,
     * an internal error and nothing logged; otherwise the cells of the 3x3
     * block that were fogged for the acting team (at least one) are logged as
     * explored, in row-major order, the acting team's fog is cleared on the
     * whole block, and the other tiles and the rest of the log are as they were.
     */
    twostate predicate ExploredFrom(p: Pos, res: Outcome)
      requires old(board.Valid())
      reads this, board, board.tiles, replay
    {
      if !board.InBounds(p.0, p.1) then
        res == Fail(Runtime(TypeError)) && unchanged(replay) && unchanged(board.tiles)
      else
        var centre := old(board.tiles[p.0, p.1]);
        && ((centre.IsFogged(team) || centre.state == Impassable) ==>
              res == Fail(Internal(ExploreFault)) && unchanged(replay) && unchanged(board.tiles))
        && (!centre.IsFogged(team) && centre.state != Impassable ==>
              && res == Pass
              && replay.explored == old(replay.explored) + old(board.FoggedBefore(p.0, p.1, team, 2, -1))
              && |old(board.FoggedBefore(p.0, p.1, team, 2, -1))| > 0
              && (forall i, j {:trigger board.tiles[i, j]} :: board.InBounds(i, j) ==>
                    board.tiles[i, j] == if Near(p, (i, j)) then old(board.tiles[i, j]).Explore(team).0 else old(board.tiles[i, j]))
              && replay.terraformed == old(replay.terraformed) && replay.robotChanges == old(replay.robotChanges)
              && replay.turns == old(replay.turns) && replay.winner == old(replay.winner))
    }

    /**
     * robot_action: the check again, then the robot acts; a miner's yield is
     * credited to the acting team, a terraformer's cell is logged as
     * terraformed and an explorer's cells as explored. An explorer standing off
     * the board gets no list back, and logging that fails with a TypeError.
     */
    method RobotAction(name: string) returns (res: Outcome, ghost actor: Option<Robot>)
      requires Valid()
      modifies this`redMetal, this`blueMetal, replay, board.tiles, red, blue
      ensures Valid()
      ensures old(ActionCheck(name)).Fail? ==>
        && res == old(ActionCheck(name)) && actor == None
        && unchanged(this) && unchanged(replay) && unchanged(board.tiles)
        && forall y :: y in red || y in blue ==> unchanged(y)
      ensures old(ActionCheck(name)) == Pass ==> actor == Some(old(Ally()[Find(Ally(), name)]))
      ensures actor.Some? ==> actor.value in Ally() && old(actor.value.CanTakeAction(board)) == Pass
      ensures actor.Some? ==>
        && actor.value.acted && actor.value.battery == old(actor.value.battery) - actor.value.actionCost
        && actor.value.Coord() == old(actor.value.Coord()) && actor.value.moved == old(actor.value.moved)
        && (forall y :: (y in red || y in blue) && y != actor.value ==> unchanged(y))
      ensures actor.Some? && actor.value.kind != Miner ==> redMetal == old(redMetal) && blueMetal == old(blueMetal)
      ensures actor.Some? && actor.value.kind == Miner ==> res == Pass && Mined(actor.value.Coord())
      ensures actor.Some? && actor.value.kind == Terraformer ==> res == Pass && Terraformed(actor.value.Coord())
      ensures actor.Some? && actor.value.kind == Explorer ==> ExploredFrom(actor.value.Coord(), res)
    {
      var check := AssertCanRobotAction(name);
      if check.Fail? {
        return check, None;
      }
      var robots := Ally();
      var x := robots[Find(robots, name)];
      actor := Some(x);
      res := Act(x);
    }

    /** A checked ally acts, and the game takes what its type produces. */
    method Act(x: Robot) returns (res: Outcome)
      requires Valid() && x in Ally() && x.CanTakeAction(board) == Pass
      modifies this`redMetal, this`blueMetal, replay, board.tiles, x
      ensures Valid()
      ensures x.acted && x.battery == old(x.battery) - x.actionCost
      ensures x.Coord() == old(x.Coord()) && x.moved == old(x.moved)
      ensures x.kind != Miner ==> redMetal == old(redMetal) && blueMetal == old(blueMetal)
      ensures x.kind == Miner ==> res == Pass && Mined(x.Coord())
      ensures x.kind == Terraformer ==> res == Pass && Terraformed(x.Coord())
      ensures x.kind == Explorer ==> ExploredFrom(x.Coord(), res)
    {
      match x.kind {
        case Miner => res := Mine(x);
        case Terraformer => res := TerraformWith(x);
        case Explorer => res := ExploreWith(x);
      }
    }

    /** A miner acts: its yield is credited to the acting team. */
    method Mine(x: Robot) returns (res: Outcome)
      requires Valid() && x in Ally() && x.kind == Miner && x.CanTakeAction(board) == Pass
      modifies this`redMetal, this`blueMetal, board.tiles, x
      ensures Valid() && res == Pass
      ensures x.acted && x.battery == old(x.battery) - x.actionCost
      ensures x.Coord() == old(x.Coord()) && x.moved == old(x.moved)
      ensures Mined(x.Coord())
    {
      var out := x.TakeAction(board);
      var amounts := out.value.amounts;
      if team == Blue {
        blueMetal := blueMetal + amounts[0];
      } else {
        redMetal := redMetal + amounts[0];
      }
      return Pass;
    }

    /** A terraformer acts: its cell is logged as terraformed. */
    method TerraformWith(x: Robot) returns (res: Outcome)
      requires Valid() && x in Ally() && x.kind == Terraformer && x.CanTakeAction(board) == Pass
      modifies replay, board.tiles, x
      ensures Valid() && res == Pass
      ensures x.acted && x.battery == old(x.battery) - x.actionCost
      ensures x.Coord() == old(x.Coord()) && x.moved == old(x.moved)
      ensures Terraformed(x.Coord())
    {
      var out := x.TakeAction(board);
      replay.AddTerraformedTiles(out.value.cells);
      return Pass;
    }

    /**
     * An explorer acts: the cells it reveals are logged as explored. Off the
     * board it gets no list back, and logging that fails with a TypeError.
     */
    method ExploreWith(x: Robot) returns (res: Outcome)
      requires Valid() && x in Ally() && x.kind == Explorer && x.CanTakeAction(board) == Pass
      modifies replay, board.tiles, x
      ensures Valid()
      ensures x.acted && x.battery == old(x.battery) - x.actionCost
      ensures x.Coord() == old(x.Coord()) && x.moved == old(x.moved)
      ensures ExploredFrom(x.Coord(), res)
    {
      var out := x.TakeAction(board);
      if out.Err? {
        return Fail(out.error);
      }
      var found := out.value.found;
      if found.None? {
        return Fail(Runtime(TypeError));
      }
      replay.AddExploredTiles(found.value);
      return Pass;
    }

    /** The move check: a direction is given, the robot is a known ally, and the cell it leads to is passable. */
    function MoveCheck(name: string, d: Option<Direction>): (o: Outcome)
      requires board.Valid()
      reads this, board, board.tiles, red, blue
      ensures o == Pass <==>
        d.Some? && Find(Ally(), name) >= 0 && Passable(Move(Ally()[Find(Ally(), name)].Coord(), d.value))
      ensures o.Fail? ==> o.error == User(IllegalMove)
    {
      if d.None? then Fail(User(IllegalMove))
      else
        var k := Find(Ally(), name);
        if k == -1 then Fail(User(IllegalMove))
        else if !Passable(Move(Ally()[k].Coord(), d.value)) then Fail(User(IllegalMove))
        else Pass
    }

    method CanMoveRobot(name: string, d: Option<Direction>) returns (ok: bool)
      requires board.Valid()
      ensures ok <==> MoveCheck(name, d) == Pass
    {
      ok := MoveCheck(name, d) == Pass;
    }

    /**
     * move_robot: the check, then, if any robot (of either team) stands on the
     * destination, both robots leave their registries and two removals are
     * logged; otherwise the robot makes the move, which is logged when it
     * happens (a robot that has already moved stays put). `mover` and `hit`
     * name the robot asked to move and the one found on its destination.
     */
    method MoveRobot(name: string, d: Option<Direction>) returns (res: Result<bool>, ghost mover: Option<Robot>, ghost hit: Option<Robot>)
      requires Valid()
      modifies this`red, this`blue, replay, red, blue
      ensures Valid()
      ensures replay.turns == old(replay.turns) && replay.winner == old(replay.winner)
      ensures replay.explored == old(replay.explored) && replay.terraformed == old(replay.terraformed)
      ensures old(MoveCheck(name, d)).Fail? ==>
        && res == Err(User(IllegalMove)) && mover == None && red == old(red) && blue == old(blue) && unchanged(replay)
        && forall y :: y in red || y in blue ==> unchanged(y)
      ensures old(MoveCheck(name, d)) == Pass ==>
        && mover == Some(old(Ally()[Find(Ally(), name)]))
        && hit == old(Occupant(Move(mover.value.Coord(), d.value).0, Move(mover.value.Coord(), d.value).1))
      ensures mover.Some? && hit.Some? ==>
        && res == Ok(true) && hit.value != mover.value
        && red == Without(Without(old(red), mover.value), hit.value)
        && blue == Without(Without(old(blue), mover.value), hit.value)
        && replay.Changes() == old(replay.Changes()) + [ChangeOf(old(mover.value.Info()), true)]
                                                     + [ChangeOf(old(hit.value.Info()), true)]
        && forall y :: y in old(red) || y in old(blue) ==> unchanged(y)
      ensures mover.Some? && hit.None? ==>
        && red == old(red) && blue == old(blue) && res == Ok(!old(mover.value.moved))
        && (forall y :: (y in red || y in blue) && y != mover.value ==> unchanged(y))
        && (old(mover.value.moved) ==> mover.value.Info() == old(mover.value.Info()) && unchanged(replay))
        && (!old(mover.value.moved) ==>
             && mover.value.Coord() == Move(old(mover.value.Coord()), d.value) && mover.value.moved
             && mover.value.battery == old(mover.value.battery) && mover.value.acted == old(mover.value.acted)
             && replay.Changes() == old(replay.Changes()) + [ChangeOf(mover.value.Info(), false)])
    {
      var check := MoveCheck(name, d);
      if check.Fail? {
        return Err(check.error), None, None;
      }
      var robots := Ally();
      var x := robots[Find(robots, name)];
      mover := Some(x);
      res, hit := MoveTo(x, d.value);
    }

    /**
     * The body of move_robot once its check has passed: a collision when any
     * robot stands on the destination, a step otherwise.
     */
    method MoveTo(x: Robot, d: Direction) returns (res: Result<bool>, ghost hit: Option<Robot>)
      requires Valid() && x in Ally() && Passable(Move(x.Coord(), d))
      modifies this`red, this`blue, replay, x
      ensures Valid()
      ensures replay.turns == old(replay.turns) && replay.winner == old(replay.winner)
      ensures replay.explored == old(replay.explored) && replay.terraformed == old(replay.terraformed)
      ensures hit == old(Occupant(Move(x.Coord(), d).0, Move(x.Coord(), d).1))
      ensures hit.Some? ==>
        && res == Ok(true) && hit.value != x && unchanged(x)
        && red == Without(Without(old(red), x), hit.value)
        && blue == Without(Without(old(blue), x), hit.value)
        && replay.Changes() == old(replay.Changes()) + [ChangeOf(old(x.Info()), true)]
                                                     + [ChangeOf(old(hit.value.Info()), true)]
      ensures hit.None? ==>
        && red == old(red) && blue == old(blue) && res == Ok(!old(x.moved))
        && (old(x.moved) ==> x.Info() == old(x.Info()) && unchanged(replay))
        && (!old(x.moved) ==>
             && x.Coord() == Move(old(x.Coord()), d) && x.moved
             && x.battery == old(x.battery) && x.acted == old(x.acted)
             && replay.Changes() == old(replay.Changes()) + [ChangeOf(x.Info(), false)])
    {
      var dest := Move(x.Coord(), d);
      var altInfo := CheckForCollision(dest.0, dest.1);
      hit := Occupant(dest.0, dest.1);
      if altInfo.Some? {
        MoveIsAdjacent(x.Coord(), d);
        res := Collide(x, altInfo.value.name, hit.value);
      } else {
        res := Step(x, d);
      }
    }

    /**
     * The collision branch of move_robot: the mover leaves the acting team's
     * registry, the robot named `altName` is looked up among the blue robots
     * and then the red ones and removed, and both removals are logged.
     */
    method Collide(x: Robot, altName: string, ghost y: Robot) returns (res: Result<bool>)
      requires Valid() && x in Ally() && (y in red || y in blue) && y != x && y.name == altName
      modifies this`red, this`blue, replay
      ensures Valid() && res == Ok(true)
      ensures red == Without(Without(old(red), x), y) && blue == Without(Without(old(blue), x), y)
      ensures replay.Changes() == old(replay.Changes()) + [ChangeOf(x.Info(), true)] + [ChangeOf(y.Info(), true)]
      ensures replay.turns == old(replay.turns) && replay.winner == old(replay.winner)
      ensures replay.explored == old(replay.explored) && replay.terraformed == old(replay.terraformed)
    {
      var other := Unregister(x, altName, y);
      replay.AddRobotChanges(x, true);
      replay.AddRobotChanges(other, true);
      return Ok(true);
    }

    /**
     * The registry half of a collision: `x` leaves the acting team's registry,
     * then the robot named `altName`, looked up among the blue robots before the
     * red ones, leaves its own; that robot is `y`.
     */
    method Unregister(x: Robot, altName: string, ghost y: Robot) returns (other: Robot)
      requires Valid() && x in Ally() && (y in red || y in blue) && y != x && y.name == altName
      modifies this`red, this`blue
      ensures Valid() && other == y
      ensures red == Without(Without(old(red), x), y) && blue == Without(Without(old(blue), x), y)
    {
      CollisionRegistries(red, blue, counter.count, board.height, board.width, x, y, team == Blue);
      if team == Blue {
        blue := Without(blue, x);
      } else {
        red := Without(red, x);
      }
      var removed := RemoveNamed(red, blue, altName);
      if removed.None? {
        assert false;
        return x;
      }
      other := removed.value.2;
      red, blue := removed.value.0, removed.value.1;
    }

    /** The plain branch of move_robot: the robot moves unless it already has, and a move is logged. */
    method Step(x: Robot, d: Direction) returns (res: Result<bool>)
      requires Valid() && x in Ally() && Passable(Move(x.Coord(), d))
      modifies replay, x
      ensures Valid() && res == Ok(!old(x.moved))
      ensures old(x.moved) ==> x.Info() == old(x.Info()) && unchanged(replay)
      ensures !old(x.moved) ==>
        && x.Coord() == Move(old(x.Coord()), d) && x.moved && x.battery == old(x.battery) && x.acted == old(x.acted)
        && replay.Changes() == old(replay.Changes()) + [ChangeOf(x.Info(), false)]
      ensures replay.turns == old(replay.turns) && replay.winner == old(replay.winner)
      ensures replay.explored == old(replay.explored) && replay.terraformed == old(replay.terraformed)
    {
      assert x.height == board.height && x.width == board.width;
      res := x.MakeMove(Some(d));
      if res == Ok(true) {
        replay.AddRobotChanges(x, false);
      }
    }

    /** The transform check: a type is given, the robot is a known ally, and the team has the transform cost. */
    function TransformCheck(name: string, kind: Option<RobotType>): (o: Outcome)
      reads this
      ensures o == Pass <==> kind.Some? && Find(Ally(), name) >= 0 && Metal() >= ROBOT_TRANSFORM_COST
      ensures o.Fail? ==> o.error == User(IllegalTransform)
    {
      if kind.None? then Fail(User(IllegalTransform))
      else if Find(Ally(), name) == -1 then Fail(User(IllegalTransform))
      else if Metal() < ROBOT_TRANSFORM_COST then Fail(User(IllegalTransform))
      else Pass
    }

    /**
     * transform_robot: the check, then the robot is replaced by a new one of
     * the requested type. `replaced` and `nr` name the old robot and the new.
     */
    method TransformRobot(name: string, kind: Option<RobotType>) returns (res: Result<RobotInfo>, ghost replaced: Option<Robot>, ghost nr: Option<Robot>)
      requires Valid()
      modifies this`red, this`blue, this`redMetal, this`blueMetal, counter, replay
      ensures Valid()
      ensures Enemy() == old(Enemy())
      ensures team == Blue ==> redMetal == old(redMetal)
      ensures team == Red ==> blueMetal == old(blueMetal)
      ensures replay.turns == old(replay.turns) && replay.winner == old(replay.winner)
      ensures replay.explored == old(replay.explored) && replay.terraformed == old(replay.terraformed)
      ensures old(TransformCheck(name, kind)).Fail? ==>
        && res == Err(User(IllegalTransform)) && replaced == None && nr == None
        && Metal() == old(Metal()) && Ally() == old(Ally()) && unchanged(replay) && counter.count == old(counter.count)
      ensures old(TransformCheck(name, kind)) == Pass ==>
        replaced == Some(old(Ally()[Find(Ally(), name)])) && nr.Some?
      ensures replaced.Some? && nr.Some? ==>
        && Metal() == old(Metal()) - ROBOT_SPAWN_COST
        && fresh(nr.value) && Ally() == Without(old(Ally()), replaced.value) + [nr.value]
        && res == Ok(nr.value.Info()) && kind == Some(nr.value.kind)
        && nr.value.Info() == RobotInfo(old(replaced.value.battery), true, true, ActionCost(nr.value.kind),
                                        old(replaced.value.row), old(replaced.value.col), team,
                                        RobotName(old(counter.count)), nr.value.kind)
        && replay.Changes() == old(replay.Changes()) + [ChangeOf(old(replaced.value.Info()), true)]
                                                     + [ChangeOf(nr.value.Info(), false)]
    {
      var check := TransformCheck(name, kind);
      if check.Fail? {
        return Err(check.error), None, None;
      }
      var robots := Ally();
      var x := robots[Find(robots, name)];
      var robot := Replace(x, kind.value);
      return Ok(robot.Info()), Some(x), Some(robot);
    }

    /**
     * The body of transform_robot once its check has passed: the team pays the
     * SPAWN cost (the check only asked for the smaller transform cost), `x` is
     * removed and logged, and a new robot of type `kind` takes its cell and
     * battery at the end of the registry, and is logged.
     */
    method Replace(x: Robot, kind: RobotType) returns (robot: Robot)
      requires Valid() && x in Ally()
      modifies this`red, this`blue, this`redMetal, this`blueMetal, counter, replay
      ensures Valid()
      ensures Metal() == old(Metal()) - ROBOT_SPAWN_COST
      ensures team == Blue ==> redMetal == old(redMetal)
      ensures team == Red ==> blueMetal == old(blueMetal)
      ensures fresh(robot) && Ally() == Without(old(Ally()), x) + [robot] && Enemy() == old(Enemy())
      ensures robot.Info() == RobotInfo(x.battery, true, true, ActionCost(kind), x.row, x.col, team,
                                        RobotName(old(counter.count)), kind)
      ensures replay.Changes() == old(replay.Changes()) + [ChangeOf(x.Info(), true)] + [ChangeOf(robot.Info(), false)]
      ensures replay.turns == old(replay.turns) && replay.winner == old(replay.winner)
      ensures replay.explored == old(replay.explored) && replay.terraformed == old(replay.terraformed)
    {
      Pay(ROBOT_SPAWN_COST);
      robot := Swap(x, kind);
    }

    /** `x` leaves the acting team's registry and is logged as removed; a new robot of `kind` takes its cell and battery. */
    method Swap(x: Robot, kind: RobotType) returns (robot: Robot)
      requires Valid() && x in Ally()
      modifies this`red, this`blue, counter, replay
      ensures Valid()
      ensures fresh(robot) && Ally() == Without(old(Ally()), x) + [robot] && Enemy() == old(Enemy())
      ensures robot.Info() == RobotInfo(x.battery, true, true, ActionCost(kind), x.row, x.col, team,
                                        RobotName(old(counter.count)), kind)
      ensures replay.Changes() == old(replay.Changes()) + [ChangeOf(x.Info(), true)] + [ChangeOf(robot.Info(), false)]
      ensures replay.turns == old(replay.turns) && replay.winner == old(replay.winner)
      ensures replay.explored == old(replay.explored) && replay.terraformed == old(replay.terraformed)
    {
      Unlist(x);
      replay.AddRobotChanges(x, true);
      robot := AddRobot(kind, x.row, x.col, x.battery);
    }

    /** `x` leaves the acting team's registry, the others keeping their order. */
    method Unlist(x: Robot)
      requires Valid()
      modifies this`red, this`blue
      ensures Valid()
      ensures Ally() == Without(old(Ally()), x) && Enemy() == old(Enemy())
    {
      ghost var reds, blues := red, blue;
      if team == Blue {
        blue := Without(blue, x);
      } else {
        red := Without(red, x);
      }
      SoundSub(reds, blues, red, blue, counter.count);
      RegistrySub(reds, red, board.height, board.width);
      RegistrySub(blues, blue, board.height, board.width);
    }

    /** get_ally_robots: every ally's snapshot, by name. */
    method GetAllyRobots() returns (res: map<string, RobotInfo>)
      requires Valid()
      ensures forall nm :: nm in res <==> exists i :: 0 <= i < |Ally()| && Ally()[i].name == nm
      ensures forall i :: 0 <= i < |Ally()| ==> Ally()[i].name in res && res[Ally()[i].name] == Ally()[i].Info()
    {
      AllyNamesDistinct();
      var robots := Ally();
      res := map[];
      var i := 0;
      while i < |robots|
        invariant 0 <= i <= |robots|
        invariant forall nm :: nm in res <==> exists k :: 0 <= k < i && robots[k].name == nm
        invariant forall k :: 0 <= k < i ==> robots[k].name in res && res[robots[k].name] == robots[k].Info()
      {
        res := res[robots[i].name := robots[i].Info()];
        i := i + 1;
      }
    }

    /** get_enemy_robots: the snapshots of the enemies standing on cells the acting team can see, by name. */
    method GetEnemyRobots() returns (res: map<string, RobotInfo>)
      requires Valid()
      ensures forall nm :: nm in res <==>
        exists i :: 0 <= i < |Enemy()| && Enemy()[i].name == nm && board.GetTileState(Enemy()[i].row, Enemy()[i].col, team) != Illegal
      ensures forall i :: 0 <= i < |Enemy()| && board.GetTileState(Enemy()[i].row, Enemy()[i].col, team) != Illegal ==>
        Enemy()[i].name in res && res[Enemy()[i].name] == Enemy()[i].Info()
    {
      AllyNamesDistinct();
      var robots := Enemy();
      res := map[];
      var i := 0;
      while i < |robots|
        invariant 0 <= i <= |robots|
        invariant forall nm :: nm in res <==>
          exists k :: 0 <= k < i && robots[k].name == nm && board.GetTileState(robots[k].row, robots[k].col, team) != Illegal
        invariant forall k :: 0 <= k < i && board.GetTileState(robots[k].row, robots[k].col, team) != Illegal ==>
          robots[k].name in res && res[robots[k].name] == robots[k].Info()
      {
        if board.GetTileState(robots[i].row, robots[i].col, team) != Illegal {
          res := res[robots[i].name := robots[i].Info()];
        }
        i := i + 1;
      }
    }
  }
}
