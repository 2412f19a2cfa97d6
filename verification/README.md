# AWAP 2023 game engine, modelled in Dafny

This project models the simulation kernel of the AWAP 2023 engine. The engine
runs a two-team, turn-based game on a grid. Each team (red, blue) has:

- metal;
- a clock;
- a registry of robots, each a miner, a terraformer or an explorer.

Robots move by king moves and spend battery on actions:

- a miner takes metal from a mining tile;
- a terraformer pushes a tile's level towards its own team;
- an explorer clears its team's fog of war around it.

A match lasts `NUM_TURNS` rounds, blue acting before red in each. A team that
overruns its clock loses at once. Otherwise a tie-break cascade decides the
winner from the final standings.

The modules follow the source files:

| module | file | form |
|---|---|---|
| `Constants` | `src/game_constants.py` | enumerations and constants |
| `Errors` | `src/errors.py` | error taxonomy, `Option`, `Result`, `Outcome` |
| `Info` | `src/info.py` | the snapshot records |
| `Grid` | (shared) | king moves, reachability within k moves |
| `Tiles` | `src/map.py` class `Tile` | a tile as a value; its updates return the new tile |
| `Maps` | `src/map.py` class `Map` | a class over an `array2<Tile>`, updated in place |
| `MapReader` | `src/map.py` class `MapReader` | map building, fog spreading, reflections |
| `MapValidate` | `src/map_validate.py` | pure checks |
| `Robots` | `src/robot.py` | a class with the robot's fields, plus the name counter |
| `Replays` | `src/replay.py` | a class holding the event log's buffers and turn records |
| `Registries` | `src/game_state.py` (dictionaries) | robot registries as insertion-ordered sequences |
| `Search` | `src/game_state.py` (searches) | the breadth-first search and its correctness proof |
| `GameStates` | `src/game_state.py` | the rules engine as a class |
| `Games` | `src/game.py` | the match driver as a class; scoring as functions |

Each player request has three forms: a check, a boolean "can" form and the
operation itself. Each check is modelled as a function returning an `Outcome`,
which is `Pass` or `Fail(error)`. The assert method and the "can" method are
both proved to agree with that function. The operation is a method whose
postcondition states:

- the error path;
- the new registries, metal and log;
- that nothing else changes.

Python exceptions are values of `Errors.Error`. This includes the ones raised
implicitly by the runtime: `TypeError`, `IndexError`, `AssertionError`,
`ValueError` and `EnvironmentError`.

## Model

| member | source | states |
|---|---|---|
| Constants.Other | src/game_constants.py:8-13 | the other team is never the team itself |
| Constants.TeamValue | src/game_constants.py:12-13 | a team's enumeration value is 1 (red) or 2 (blue) |
| Constants.DirectionIndex | src/game_constants.py:26-37 | every direction has a place in the enumeration order that BFS and the fog spread iterate |
| Constants.DirectionsAreKingMoves | src/game_constants.py:30-37 | the eight directions are distinct, each is a nonzero offset in [-1,1]², and every such offset is one of them |
| Grid.MoveIsAdjacent | src/game_constants.py:30-37 | a step in any direction reaches an adjacent cell |
| Grid.AdjacentIsMove | src/game_state.py:81-83 | every adjacent cell is one step in some direction, so the searches' direction loop covers all king moves |
| Grid.WithinMonotone | src/game_state.py:76-98 | the cells reachable within j moves are reachable within any k ≥ j |
| Grid.WithinStep | src/game_state.py:81-95 | one walkable king move extends a path by one |
| Grid.WithinPredecessor | src/game_state.py:81-95 | a cell first reached at k moves has a walkable predecessor at k-1 |
| Grid.WithinWalkable | src/game_state.py:84-89 | only the start and walkable cells are ever reached |
| Grid.WithinFromNeighbour | src/game_state.py:81-95 | a path from a walkable neighbour is a path from the start one move longer |
| Grid.WithinClosed | src/game_state.py:76-98 | a set closed under walkable moves that holds the start holds everything reachable |
| Grid.WithinOneIsBlock | src/map.py:330-342 | over a full block, one move reaches exactly the 3x3 block |
| Tiles.TerraformStep | src/map.py:50-57 | a terraform step is +1 for blue and -1 for red |
| Tiles.Tile.Terraform | src/map.py:50-57 | the step succeeds iff the level is not already at the team's end; on success the level moves one step toward the team, otherwise the tile is unchanged; a level in [-10,10] stays there; fog is untouched |
| Tiles.Tile.Explore | src/map.py:59-66 | returns true iff the team's fog bit was set; afterwards that bit is clear, the other team's bit is as before, no bit is ever set, and no other field changes |
| Tiles.Tile.GetInfo | src/map.py:81-91 | nothing under the viewer's fog; otherwise the tile's state, cell and yield, and the level seen from the viewer's side (red sees it negated) |
| Tiles.TerraformSaturates | src/map.py:50-57 | repeated steps from inside the range never leave it, and after 20 steps the level sits at the team's end |
| Tiles.TerraformDistance | src/map.py:50-57 | after n steps the level has moved exactly n toward the team's end, or has reached it |
| Maps.Join | src/map.py:132-146 | the initial lists of two adjacent row-major regions are the concatenation of their lists |
| Maps.JoinPassability | src/map.py:136-137 | the impassable-cell list concatenates over adjacent regions |
| Maps.JoinMetal | src/map.py:138-139 | the mining-cell list concatenates over adjacent regions |
| Maps.JoinTerraformed | src/map.py:140-141 | the terraformed-cell list concatenates over adjacent regions |
| Maps.JoinVisible | src/map.py:142-146 | the visible-cell list concatenates over adjacent regions |
| Maps.CellDescribes | src/map.py:134-146 | one tile's entries describe the one-tile region |
| Maps.EmptyDescribes | src/map.py:128-131 | the empty lists describe the empty region |
| Maps.RowEnd | src/map.py:132-133 | the end of one row is the start of the next in the scan order |
| Maps.PrefixMembers | src/map.py:132-146 | after the scan reaches (r, c), each list holds exactly the matching cells before (r, c), in row-major order |
| Maps.PrefixCellStep | src/map.py:133-146 | scanning one more tile adds exactly that tile's entries |
| Maps.ExploreKeepsOk | src/map.py:59-66 | exploring changes only fog, so a well-formed tile stays well formed |
| Maps.ScanTile | src/map.py:134-146 | one tile's entries: impassable, else mining with its yield, else a nonzero level; then red's and blue's visibility |
| Maps.ScanInitialLists | src/map.py:127-146 | the row-major scan builds exactly the lists PrefixMembers characterises |
| Maps.Map.constructor | src/map.py:123-146 | the map takes a loaded grid, its height and width, and records the initial lists of the whole grid |
| Maps.Map.IsTerraformed | src/map.py:154-159 | None off the map; otherwise level < 0 for red and level > 0 for blue, whatever the fog |
| Maps.Map.IsMineable | src/map.py:161-164 | None off the map; otherwise whether the tile is a mining tile |
| Maps.Map.GetTileState | src/map.py:166-171 | ILLEGAL exactly when the cell is off the map or fogged for the team; otherwise the stored state |
| Maps.Map.Terraform | src/map.py:176-194 | Ok(None) off the map; an internal error when the tile is fogged for the team or not terraformable; otherwise the tile's own step, with every other tile unchanged |
| Maps.Map.FoggedBeforeMembers | src/map.py:212-219 | the sweep's list holds exactly the on-map cells of the 3x3 block, before the given offset, that were fogged for the team |
| Maps.Map.FoggedBeforeSorted | src/map.py:213-219 | the sweep's list is in strictly increasing row-major order, so it has no repeats |
| Maps.Map.SweepCell | src/map.py:215-219 | an on-map cell loses the team's fog and is reported iff it had it; other cells are unchanged |
| Maps.Map.Sweep | src/map.py:212-220 | the two offset loops return the fogged on-map cells of the block in row-major order and clear the team's fog on every on-map cell of the block, touching nothing else |
| Maps.Map.Explore | src/map.py:196-220 | Ok(None) off the map; an internal error when the centre is fogged for the team or impassable; otherwise the fogged on-map block cells in row-major order, after which the team sees the whole block; the map stays well formed |
| Maps.Map.Mine | src/map.py:222-236 | an internal error exactly when the cell is off the map or fogged; otherwise [yield] on a mining tile and [] elsewhere; it reads the map and never changes it |
| MapReader.QueuedAppend | src/map.py:341 | appending a visit adds its cell to the queued cells |
| MapReader.ExploreTwice | src/map.py:59-66 | clearing fog twice is clearing it once |
| MapReader.EnqueueNeighbours | src/map.py:338-342 | every in-bounds, not yet visited neighbour is enqueued with one less depth, in direction order, and marked visited |
| MapReader.SpreadStep | src/map.py:334-342 | dequeuing, clearing and expanding the front visit keeps the spread's invariant and decreases its measure |
| MapReader.SpreadDone | src/map.py:334 | once the queue is empty the start is cleared, and with a nonzero radius so is the whole on-map 3x3 block |
| MapReader.LayeredStep | src/map.py:334-342 | each step keeps the breadth-first order: queued distances from the start never fall and grow by at most one, each depth left is the radius minus the distance, every cell up to the front is visited, and every cleared cell off the radius's rim has all its neighbours visited |
| MapReader.SpreadReach | src/map.py:330-342 | once the queue is empty every on-grid cell within the radius of the start (every cell for a negative radius) has been cleared |
| MapReader.Spread | src/map.py:330-342 | only the team's fog is cleared; with radius r ≥ 0 exactly the cells within r king moves of the start become visible to the team (nothing farther changes); with r < 0 the depth never reaches 0 and the whole grid becomes visible; with r ≠ 0 the 3x3 block around the start does |
| MapReader.VisualizeBaseTiles | src/map.py:322-353 | an IndexError for no rows and an EnvironmentError for empty rows; otherwise only fog is cleared; a team gains sight only within the radius of one of its bases, and gains it on every cell within the radius of each of its bases (every cell when the radius is negative); with a nonzero radius each team sees the 3x3 block around each of its bases |
| MapReader.TypeFaultFromPass | src/map.py:277-281 | the type scan from (r, c) passes iff every later cell exists and is a (str, int, int); it fails only with an IndexError or an invalid map |
| MapReader.TypeCheckPass | src/map.py:277-281 | the whole type check passes iff the rows are well typed over the first row's width |
| MapReader.ParseCell | src/map.py:288-315 | a cell is accepted iff its tag is T, I or M, a nonzero level only on T, the yield non-negative and a positive yield only on M; an accepted cell keeps its state, level and yield, and each team sees exactly its own bases |
| MapReader.ParseFaultFromPass | src/map.py:286-315 | the parse from (r, c) passes iff every later cell is accepted; otherwise the map is invalid |
| MapReader.ValidCellParses | src/map_validate.py:83-97 | any cell that passes the validator is well typed and accepted by generateMap, and gives a well-formed tile |
| MapReader.CheckTypes | src/map.py:277-281 | the loop computes exactly the type scan |
| MapReader.PopulateTiles | src/map.py:284-315 | fails iff the parse scan fails, with its error; otherwise a fresh grid of the map's size holding every parsed cell |
| MapReader.GenerateMap | src/map.py:268-319 | an IndexError for no rows; an invalid map for an empty first row; then the type and parse errors in row-major order; otherwise a grid of parsed tiles with the bases' sight spread |
| MapReader.MakeReflectTile | src/map.py:357-370 | an EnvironmentError iff the size is empty, the cell is off the grid or the kind is unknown; the partner it returns otherwise is pinned down by ReflectTileSquareAgrees and ReflectTileLeavesGrid |
| MapReader.ReflectTileLeavesGrid | src/map.py:362-363 | on a 3-wide, 1-high grid the written diagonal partner of (0, 0) is row 2, off the grid |
| MapReader.MakeReflectTileIntended | src/map.py:357-370 | the same error cases; otherwise the half-turn, horizontal-mirror or vertical-mirror partner |
| MapReader.ReflectTileIntendedIsSymmetry | src/map_validate.py:6-17 | the intended partner is the validator's reflection of the same kind, lies on the grid and maps back to the cell |
| MapReader.ReflectTileSquareAgrees | src/map.py:120 | on a square grid (the only size the engine generates) the written and intended versions agree |
| MapReader.LoadMap | src/map.py:111-146 | a map that fails the validator is refused with the validator's error; a file of empty rows passes the validator and is then refused as an invalid map; otherwise the Map is well formed, has the file's size, holds the parsed grid with sight spread, and has the whole grid's initial lists |
| MapValidate.Reflect | src/map_validate.py:6-17 | every reflection sends an in-range cell to an in-range cell; the horizontal mirror keeps the column and the vertical mirror keeps the row |
| MapValidate.ReflectInvolution | src/map_validate.py:6-17 | each reflection undoes itself |
| MapValidate.SymmetricStep | src/map_validate.py:57-65 | symmetry up to (r, n) is symmetry up to (r, n-1) plus cell (r, n-1) |
| MapValidate.SymmetricRowEnd | src/map_validate.py:57-58 | the end of one row is the start of the next, and symmetry up to a point holds up to any earlier point |
| MapValidate.RowMismatchesEmpty | src/map_validate.py:58-65 | a row's mismatch list is empty iff the row's cells so far match their mirror cells |
| MapValidate.RowsMismatchesEmpty | src/map_validate.py:57-65 | the mismatch list of the first k rows is empty iff those rows match their mirrors |
| MapValidate.RowMirroredSymmetric | src/map_validate.py:58-65 | the cell-by-cell count of a row agrees with the quantified statement of its symmetry |
| MapValidate.RowsMirroredSymmetric | src/map_validate.py:57-65 | the row-by-row count agrees with the quantified statement of symmetry |
| MapValidate.MismatchesEmpty | src/map_validate.py:54-68 | a reflection's mismatch list is empty iff the map is symmetric under it |
| MapValidate.HasSymNamesAsymmetry | src/map_validate.py:47-71 | as written, has_sym names a reflection the map does NOT have, the map has every reflection listed after it, and there is none iff the map has all three |
| MapValidate.HasSymIntendedNamesSymmetry | src/map_validate.py:47-71 | the intended report names a reflection the map has, and it has none listed after it |
| MapValidate.ValidateCell | src/map_validate.py:83-97 | a cell without three values fails to unpack; I needs no level and no yield; T needs no yield and a level of -5, 0 or 5; M needs no level and a yield in [5, 25]; any other tag fails |
| MapValidate.CellFaultFromPass | src/map_validate.py:84-97 | the cell scan from (r, c) passes iff every later cell passes |
| MapValidate.FirstRaggedRow | src/map_validate.py:38-39 | the first row whose length differs from row 0's, or the row count when there is none |
| MapValidate.ValidateMap | src/map_validate.py:31-97 | as written: an empty list or a ragged row fails; a map symmetric under all three reflections fails with an IndexError; then every cell is checked in row-major order |
| MapValidate.ValidateMapIntended | src/map_validate.py:31-97 | the same checks, with a symmetry report that never fails |
| MapValidate.ValidateMapIntendedPass | src/map_validate.py:32-97 | a map passes iff it is non-empty and rectangular and every cell passes |
| MapValidate.ValidateMapAgrees | src/map_validate.py:47-79 | the written and intended validators agree on every ragged map and on every map the written symmetry report names a reflection for |
| MapValidate.SymmetricMapCrashes | src/map_validate.py:75-78 | the one-cell map fails the written validator with an IndexError and passes the intended one |
| Robots.DigitChar | src/robot.py:15 | a digit is a character in '0'..'9' carrying its value |
| Robots.Decimal | src/robot.py:15 | a numeral is a non-empty string of digits |
| Robots.DecimalRoundTrip | src/robot.py:15 | reading a numeral back gives the number |
| Robots.RobotNameInjective | src/robot.py:15-16 | different counter readings give different names "robot_k" |
| Robots.RobotName | src/robot.py:15 | the name is "robot_" followed by a numeral that reads back as the counter value |
| Robots.RobotCounter.constructor | src/robot.py:11 | the counter starts at 1 |
| Robots.RobotCounter.Next | src/robot.py:28-34 | a reading returns the current count and steps it by one |
| Robots.ActionCost | src/robot.py:110-178 | the cost is 20 for a miner, 20 for a terraformer and 10 for an explorer, whatever the constructor is passed |
| Robots.Robot.constructor | src/robot.py:14-26 | a new robot is named from the counter, which steps; it has moved and acted, a full battery and its type's cost |
| Robots.Robot.SetBattery | src/robot.py:51-52 | the battery takes the value; nothing else changes |
| Robots.Robot.Charge | src/robot.py:54-56 | the battery becomes min(battery + charge, 120); a non-negative charge never lowers a battery within the cap |
| Robots.Robot.ResetMoveStatus | src/robot.py:58-59 | the robot may move again; nothing else changes |
| Robots.Robot.ResetActedStatus | src/robot.py:61-62 | the robot may act again; nothing else changes |
| Robots.Robot.MakeMove | src/robot.py:64-79 | an internal error for no direction or a destination off the grid; false with nothing changed once it has moved; otherwise it moves by exactly the direction's offset and is marked as moved |
| Robots.Robot.ReadyToAct | src/robot.py:87-91 | refused iff the robot has acted or its battery is below its action cost |
| Robots.Robot.HasFogNearby | src/robot.py:187-194 | the 3x3 scan finds fog iff some on-map cell of the block is fogged for the robot's team |
| Robots.Robot.AssertCanTakeAction | src/robot.py:84-196 | the check of the robot's type: ready to act, then a visible mining tile (miner), a visible terraformable tile that can take one more step (terraformer), or fog in the block (explorer) |
| Robots.Robot.TakeAction | src/robot.py:126-212 | a refused check changes nothing; otherwise the robot has acted and paid exactly its cost, stays put, keeps its battery within the cap; a miner returns [yield]; a terraformer steps its tile and returns its own cell; an explorer returns the map's sweep |
| Robots.Robot.ExplorerFindsFog | src/robot.py:181-212 | an on-map explorer that passes its check reports at least one cell |
| Robots.Robot.Coord | src/robot.py:45-46 | the robot's cell, as (row, column) |
| Robots.Robot.Info | src/robot.py:93-104 | the record carries the robot's name, type, team, cell, battery, flags and cost; for a well-formed robot the battery is within the cap and the cost is its type's |
| Replays.KindTagReadsBack | src/replay.py:83-89 | a type tag is one letter that reads back as its type |
| Replays.TeamNameReadsBack | src/replay.py:92-96 | a team name reads back as its team |
| Replays.ChangeOf | src/replay.py:72-97 | an event carries the robot's name and battery, and its cell or (-1, -1) when terminating |
| Replays.ChangeOfReadsBack | src/replay.py:83-96 | an event's type tag and team name read back as the robot's |
| Replays.AllAppend | src/replay.py:125 | appending a turn appends its three lists to the game-long lists |
| Replays.Replay.constructor | src/replay.py:32-64 | the header as given, no winner, no turns, empty buffers |
| Replays.Replay.AddExploredTiles | src/replay.py:66-67 | the tiles are appended to the explored buffer in order; nothing else changes |
| Replays.Replay.AddTerraformedTiles | src/replay.py:69-70 | the tiles are appended to the terraformed buffer in order; nothing else changes |
| Replays.Replay.AddRobotChanges | src/replay.py:72-97 | exactly one event is appended: name, cell or (-1, -1), type tag, battery, team name |
| Replays.Replay.AddTurn | src/replay.py:99-129 | one record is appended and earlier ones are kept; on timeout its lists are empty and the buffers stay; otherwise it carries the buffers, which are emptied; the game-long lists (flushed turns plus buffers) are unchanged, so no entry is lost or repeated |
| Replays.Replay.SetWinner | src/replay.py:131-132 | only the winner changes |
| Registries.Find | src/game_state.py:229-234 | -1 iff no robot has the name; otherwise the first position holding it |
| Registries.Without | src/game_state.py:316-322 | removal keeps every other robot in order, drops the robot, and shrinks a duplicate-free registry by one when it held it |
| Registries.FirstAt | src/game_state.py:52-57 | the first robot standing on the cell, or None iff none stands there |
| Registries.RemoveNamed | src/game_state.py:317-324 | a robot with the name is removed from blue first, else from red; None iff neither registry has the name |
| Registries.FindIsThe | src/robot.py:15-16 | in a registry of distinct, properly named robots a robot's name finds that robot |
| Search.PositionsAppend | src/game_state.py:92-95 | enqueuing an entry adds its cell to the queued cells |
| Search.PositionsHas | src/game_state.py:92-95 | a cell is queued iff some entry holds it |
| Search.LayeredAppend | src/game_state.py:92-95 | an entry one move farther than the front keeps the queue ordered by distance |
| Search.ChildIsExact | src/game_state.py:90-95 | a freshly discovered cell carries its true distance |
| Search.QueuedIsFar | src/game_state.py:77-95 | a cell still queued behind a front at d+1 moves is not within d moves |
| Search.ReachedIsVisited | src/game_state.py:81-95 | a cell first reached at d moves is a walkable neighbour of an expanded cell, so it is visited |
| Search.SettledOne | src/game_state.py:77-95 | a visited cell within d moves is expanded once the front is at d+1 |
| Search.FrontSettled | src/game_state.py:78-95 | after the front entry is expanded the next front is settled too |
| Search.ChildSound | src/game_state.py:91-94 | a child entry is reachable in its move count and starts with its recorded first step |
| Search.ExpandPush | src/game_state.py:90-95 | enqueuing an unvisited walkable neighbour keeps the inner loop's invariant |
| Search.ExpandSkip | src/game_state.py:86-90 | skipping a blocked or visited neighbour keeps the inner loop's invariant |
| Search.ExpandDone | src/game_state.py:81-95 | after the eight directions every walkable neighbour is visited |
| Search.ExpandEntry | src/game_state.py:81-95 | the direction loop enqueues exactly the unvisited walkable neighbours, in direction order |
| Search.SearchStart | src/game_state.py:76-77 | the initial queue satisfies the search invariant |
| Search.PopOk | src/game_state.py:78-79 | popping the front of an invariant state gives what its expansion needs |
| Search.FoundGoal | src/game_state.py:80 | a dequeued goal entry gives a shortest path to the goal set and its first step |
| Search.AfterExpandSets | src/game_state.py:81-95 | the bookkeeping sets after expanding the front entry |
| Search.AfterExpandFront | src/game_state.py:78-95 | the new front is settled after expanding the old one |
| Search.AfterExpand | src/game_state.py:78-95 | one iteration of the outer loop re-establishes the search invariant |
| Search.Exhausted | src/game_state.py:97-98 | when the queue runs out, no goal is reachable |
| Search.ShortestPathAnswers | src/game_state.py:62-98 | the search's guarantees amount to an answer: (None, -1) only when no goal is reachable, n = 0 exactly when the start is a goal, otherwise a first step and a distance with no goal closer |
| Search.UnwalkableGoal | src/game_state.py:88-89 | a single goal that is neither walkable nor the start is never reached |
| Search.ShortestPath | src/game_state.py:76-98 | (None, -1) iff no goal is reachable; otherwise the fewest king moves to a goal through walkable cells, and a first step of such a shortest path |
| GameStates.BuiltKind | src/game_state.py:195-221 | a spawn builds the requested type, and a terraformer when none is given |
| GameStates.DistinctAppend | src/game_state.py:222 | a robot built after all registered ones can join either registry without a repeat |
| GameStates.SameNameIn | src/game_state.py:317-322 | in distinct, properly named registries a name picks out one robot |
| GameStates.RegistrySub | src/game_state.py:316-322 | a registry drawn from a well-formed one is well formed |
| GameStates.SoundSub | src/game_state.py:316-322 | registries drawn from sound ones, each robot at most once, are sound |
| GameStates.SoundAppend | src/game_state.py:222 | a robot built after every registered one joins its team's registry soundly |
| GameStates.RemoveNamedFinds | src/game_state.py:317-322 | in sound registries, removal by a robot's name removes that very robot |
| GameStates.CollisionRegistries | src/game_state.py:314-324 | after a collision the mover leaves its registry, the lookup by name removes exactly the robot hit, and the registries stay sound and well formed |
| GameStates.GameState.constructor | src/game_state.py:21-33 | the state over the given map and log: blue to act on turn 1, no robots, INIT_METAL and TIME_LIMIT for both teams |
| GameStates.GameState.Metal | src/game_state.py:502-507 | the acting team's balance |
| GameStates.GameState.SameName | src/game_state.py:317-322 | two registered robots with one name are the same robot |
| GameStates.GameState.AllyNamesDistinct | src/game_state.py:459-460 | no two robots of a registry share a name (dictionary keys) |
| GameStates.GameState.Ally | src/game_state.py:425-429 | the acting team's registry: blue's on blue's turn, red's on red's |
| GameStates.GameState.Enemy | src/game_state.py:463-469 | the other team's registry |
| GameStates.GameState.AllyIsTeam | src/game_state.py:425-469 | in a well-formed game every ally belongs to the acting team and every enemy to the other, and the two registries together hold every robot |
| GameStates.GameState.Occupant | src/game_state.py:41-60 | None on a cell the acting team cannot see; otherwise the first red robot there, else the first blue one, and None iff no robot stands there |
| GameStates.GameState.CheckForCollision | src/game_state.py:41-60 | the loops return the occupant's snapshot, or None iff there is no occupant |
| GameStates.GameState.WalkIs | src/game_state.py:84-89 | the walkable cells are the visible, passable ones, less the occupied ones when collisions count |
| GameStates.GameState.OptimalPath | src/game_state.py:62-98 | (None, -1) unless both ends are visible and passable; otherwise a shortest-path answer over the walkable cells; an occupied end other than the start is never reached when collisions count |
| GameStates.GameState.BasesAre | src/game_state.py:127 | the goals are exactly the cells terraformed for the acting team |
| GameStates.GameState.RobotToBase | src/game_state.py:100-146 | (None, -1) for an unknown ally or a start it cannot path from; otherwise a shortest-path answer to the nearest own terraformed cell, (None, 0) when it stands on one |
| GameStates.GameState.SpawnCheck | src/game_state.py:149-169 | passes iff a type is given, the cell is visible, passable, own terraformed and unoccupied, and the team has 50 metal; a failure is IllegalSpawn |
| GameStates.GameState.AssertCanSpawnRobot | src/game_state.py:149-169 | the assert computes SpawnCheck |
| GameStates.GameState.CanSpawnRobot | src/game_state.py:173-178 | true iff SpawnCheck passes |
| GameStates.GameState.SpawnRobot | src/game_state.py:181-226 | without re-checking: the acting team pays exactly 50; one robot with a fresh name, full battery and both flags set is appended to its registry; one event is logged; the enemy and the other balance are unchanged |
| GameStates.GameState.Pay | src/game_state.py:187-191 | the acting team's balance drops by the cost; the other team's is untouched |
| GameStates.GameState.AddRobot | src/game_state.py:193-225 | a fresh robot of the type, with a fresh name, is appended to the acting team's registry and logged |
| GameStates.GameState.Register | src/game_state.py:222 | the robot is appended to the acting team's registry and the state stays valid |
| GameStates.GameState.ActionCheck | src/game_state.py:229-236 | an unknown ally fails with IllegalAction; otherwise the robot's own check |
| GameStates.GameState.AssertCanRobotAction | src/game_state.py:229-236 | the assert computes ActionCheck |
| GameStates.GameState.CanRobotAction | src/game_state.py:240-245 | true iff ActionCheck passes |
| GameStates.GameState.RobotAction | src/game_state.py:248-269 | a failing check changes nothing; otherwise the robot acts and pays its cost; a miner's yield goes to the acting team only and leaves the board alone; a terraformer steps only its own tile and logs it as terraformed; an explorer clears its team's fog on exactly its 3x3 block and logs those cells as explored (a TypeError when it is off the board); no other robot and no other tile changes |
| GameStates.GameState.Act | src/game_state.py:255-269 | a checked ally acts, and the game takes what its type produces; the board changes only on the terraformed tile or the explored block |
| GameStates.GameState.Mine | src/game_state.py:261-265 | the miner acts and its yield is credited to the acting team |
| GameStates.GameState.TerraformWith | src/game_state.py:266-267 | the terraformer acts, its own tile takes one step for its team and is logged as terraformed; every other tile is unchanged |
| GameStates.GameState.ExploreWith | src/game_state.py:268-269 | the explorer acts, its team's fog is cleared on its 3x3 block and nowhere else, and the cells it reveals are logged as explored |
| GameStates.GameState.MoveCheck | src/game_state.py:272-293 | passes iff a direction is given, the robot is a known ally and its destination is visible and passable; a failure is IllegalMove; the moved flag is not checked |
| GameStates.GameState.CanMoveRobot | src/game_state.py:296-301 | true iff MoveCheck passes |
| GameStates.GameState.MoveRobot | src/game_state.py:304-334 | a failing check changes nothing; if any robot stands on the destination, both robots leave their registries, two removals are logged and the result is true, even for a robot that has already moved; otherwise the result is make_move's, logged only on success |
| GameStates.GameState.MoveTo | src/game_state.py:307-334 | the collision branch when the destination is occupied, the step branch otherwise |
| GameStates.GameState.Collide | src/game_state.py:315-328 | both robots leave their registries and both removals are logged, mover first |
| GameStates.GameState.Unregister | src/game_state.py:316-324 | the mover leaves its registry, then the robot hit leaves its own |
| GameStates.GameState.Step | src/game_state.py:330-334 | the robot moves unless it already has; the move is logged only when it happens |
| GameStates.GameState.TransformCheck | src/game_state.py:337-351 | passes iff a type is given, the robot is a known ally and the team has 40 metal; a failure is IllegalTransform |
| GameStates.GameState.TransformRobot | src/game_state.py:362-422 | a failing check changes nothing; otherwise the team pays 50 (not 40); the old robot leaves and is logged; a new robot of the type takes its cell and battery, with both flags set, and is logged |
| GameStates.GameState.Replace | src/game_state.py:373-421 | the body of transform_robot once the check passed |
| GameStates.GameState.Swap | src/game_state.py:381-421 | the old robot leaves and is logged, and a new one takes its cell and battery at the end of the registry |
| GameStates.GameState.Unlist | src/game_state.py:383 | the robot leaves the acting team's registry, the others keeping their order |
| GameStates.GameState.GetAllyRobots | src/game_state.py:450-461 | a snapshot of every ally, keyed by name |
| GameStates.GameState.GetEnemyRobots | src/game_state.py:463-478 | snapshots of exactly the enemies on cells the acting team can see, keyed by name |
| Games.RoundOutcome | src/game.py:104-120 | blue's clock is asked first in a round, and red's only if blue's held |
| Games.LexStep | src/game.py:145-163 | in lexicographic comparison the heads decide unless they are equal |
| Games.DecideWinner | src/game.py:145-163 | red wins a complete tie |
| Games.WinnerIsLexOrder | src/game.py:145-163 | blue wins iff (terraformed, robots, metal, -time left) is lexicographically greater for blue; every other outcome is red's |
| Games.WinnerSwaps | src/game.py:145-163 | swapping two different standings swaps the winner |
| Games.OwnerIsTerraformer | src/game.py:125-130 | a tile counts for a team iff it is terraformed for that team |
| Games.RowTallyBound | src/game.py:126-130 | each tile of a row counts for one team at most |
| Games.TallyBound | src/game.py:125-130 | the two terraformed totals together never exceed the number of tiles |
| Games.BindAddTurn | src/replay.py:99 | a call to addTurn binds iff exactly four numbers follow the team name; otherwise it raises TypeError |
| Games.TimeoutCallAsWritten | src/game.py:235 | the timed-out branch's call raises TypeError on every turn |
| Games.TimeoutCallCorrected | src/game.py:235 | with the robot count added, the call binds and records the turn number as the turn number |
| Games.RefreshRobots | src/game.py:201-208 | every robot of the acting team may move and act again and stays put; exactly those on own terraformed tiles are charged 30, capped at 120 |
| Games.Game.constructor | src/game.py:37-88 | the log's header, blue to act on turn 1, no robots, INIT_METAL and TIME_LIMIT for both teams |
| Games.Game.TimeLeft | src/game.py:184-191 | the acting team's clock |
| Games.Game.BeginTurn | src/game.py:179-208 | the turn is recorded; from turn 2 on only the acting team gains 10 metal; its robots are refreshed and charged on own ground |
| Games.Game.EndTurn | src/game.py:231-252 | a timeout iff the player is still running or used the whole clock; a timeout leaves both clocks and records a placeholder; otherwise only the acting team's clock drops by the duration and the turn is recorded with its buffers |
| Games.Game.RunTurn | src/game.py:171-252 | one turn: the state stays valid; from turn 2 on the acting team earns its income and the other balance is untouched; every ally is refreshed (charged on its own ground); the timeout condition as above; only the acting team's clock changes; exactly one record is appended, carrying the new balance when there is no timeout |
| Games.Game.CountTerraformed | src/game.py:122-130 | the nested loops count exactly the tiles owned by each team |
| Games.Game.PlayRound | src/game.py:104-120 | blue plays, and red plays only if blue did not time out; the team that timed out is reported; otherwise both clocks drop by their durations and two records are appended |
| Games.Game.Finish | src/game.py:122-163 | the winner is the cascade applied to the final terraformed counts, registry sizes, metal and clocks |
| Games.Game.RunGame | src/game.py:99-169 | the first team to time out loses at once; when none does, all 200 rounds are recorded and the cascade decides; a winner is always set |

## Left out

- Threads and wall-clock timing (src/game.py:218-223) are left out. A player's turn is observed only as a duration plus a still-running flag (`Games.TurnReport`), and `Games.Game.RunGame` receives these observations as its input.
- Clocks are integers, because the engine's floating-point seconds are not modelled.
- The player's own moves during its turn are left out of the match model. `Games.Game.RunGame` runs each turn as `BeginTurn` then `EndTurn`. Every operation a player may call is modelled on `GameStates.GameState`, but the match model does not interleave those calls within a turn.
- Stdout redirection, printing and dynamic bot import (src/game.py:19-34, 91-94, 210-229) are I/O.
- File I/O is left out: reading the map file, `saveMap`, `write_json`, and the printing in `val_maps`/`val_map_wrap`. `MapReader.LoadMap` takes the decoded rows as input.
- `generateRandMap` is left out because it depends on `random`. `makeReflectTile`, the only part of it that matters here, is modelled.
- String rendering is not modelled: `Tile.string`, the `__str__` methods and `get_str_map`. Neither is the snapshot assembly in `get_map`/`get_info`; `Tile.get_info` itself is modelled as `Tiles.Tile.GetInfo`.
- `get_spawn_cost`, `get_transform_cost`, `get_team`, `get_turn`, `get_time_left` and `get_terraform_status` are plain field reads. They appear as fields, `GameStates.GameState.Metal` and `Games.Game.TimeLeft`.
- `generateMap`'s `type(arr) != list` test is not modelled, because a decoded map is a sequence of rows by type. A cell's values are typed strings, integers or other values.
- Python's shared `info` dictionary and the registry dictionaries become fields of `GameStates.GameState`, and `Games.Game` reaches them through its `gs` field. The static `Robot.counter` is a `Robots.RobotCounter` object passed to the constructor.
- A tile is a value in the map's `array2` rather than a shared object. This is faithful because each tile object is held by exactly one grid cell.
- GameStates.GameState.Valid: does not carry each registered robot's battery cap. The cap is kept per robot by `Robots.Robot.Charge` and `Robots.Robot.TakeAction`, and not as a whole-game invariant.
- Games.Game.EndTurn: records the timeout placeholder with the robot count in its place. As written, the call raises TypeError instead (see Findings).
- `MapReader.LoadMap` validates with the intended symmetry report. As written, a map symmetric under all three reflections is refused with an IndexError (see Findings).
- MapReader.LoadMap: "validator passes ⇒ the map loads" holds only for the values the model has. A cell with a boolean or a non-integer number, such as `["T", 5.0, 0]` or `["I", False, 0]`, passes the source's validator because Python compares those equal to integers. generateMap then refuses it with InvalidMapError (src/map.py:277-281). The model has no such values.
- MapValidate.ValidateCell: has no boolean or non-integer cell values. The source lets `False`, `True` and floats such as `5.0` through its integer comparisons; the model's tests see only strings, integers and other values.
- MapReader.ValidCellParses: holds only for the model's values. In the source a validated cell with a boolean or a float is refused by generateMap's type check.
- MapValidate.RowMismatches: compares cells with the model's equality. Python's tuple comparison in the symmetry check also equates `5.0` with `5` and `False` with `0`, which the model cannot express.
- Games.Game.RunTurn: inherits the corrected timeout record of `Games.Game.EndTurn`. As written, every timeout raises TypeError at src/game.py:235 and no winner is set.
- Games.Game.PlayRound: inherits the corrected timeout record of `Games.Game.EndTurn`. As written, a timeout in either half of the round raises TypeError and no winner is set.
- Games.Game.RunGame: inherits the corrected timeout record of `Games.Game.EndTurn`. As written, the first timeout raises TypeError and the match ends with no winner, where the model declares the other team the winner.

## Findings

| source | as written | input that shows it | evidently intended | confidence | as-written member | corrected member |
|---|---|---|---|---|---|---|
| src/game.py:235 | `addTurn(replay_team, -1, turn, -1, timeout=True)` passes three numbers to a method needing four (time_left, num_robots, turn_number, metal) | any turn on which the player times out | `addTurn(replay_team, -1, len(robots), turn, -1, timeout=True)` | not executed | Games.TimeoutCallAsWritten | Games.TimeoutCallCorrected |
| src/map_validate.py:70-78 | `has_sym` is set when a reflection has mismatches; when none has any, `bads[0]` is read from an empty list | the one-cell map `[[("T", 0, 0)]]` | name a reflection the map has, and report nothing on a fully symmetric map | not executed | MapValidate.SymmetricMapCrashes | MapValidate.ValidateMapIntendedPass |
| src/map.py:363-367 | the partner row uses `width` and the partner column uses `height` | width 3, height 1, cell (0, 0), diagonal: the partner is (2, 0), off the grid | `height - 1 - row` and `width - 1 - col`, as in the validator's reflections | not executed | MapReader.ReflectTileLeavesGrid | MapReader.ReflectTileIntendedIsSymmetry |
