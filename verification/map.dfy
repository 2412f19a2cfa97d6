/**
 * The game board (class Map of src/map.py): a height x width grid of tiles,
 * the lists recorded for the replay when the map is built, and the queries and
 * mutations the robots and the rules engine use.
 */
module Maps {
  import opened Constants
  import opened Errors
  import opened Grid
  import opened Tiles

  /**
   * What every loaded tile satisfies: a real state, its own coordinates, a level
   * within range, a level only on terraformable ground, and a non-negative yield
   * only on mining ground.
   */
  predicate TileOk(t: Tile, r: int, c: int) {
    && t.state != Illegal
    && t.row == r && t.col == c
    && t.Clamped()
    && (t.terraform != 0 ==> t.state == Terraformable)
    && t.mining >= 0
    && (t.mining > 0 ==> t.state == Mining)
  }

  /** A grid of at least one row and one column whose tiles are all TileOk. */
  predicate GridOk(g: array2<Tile>)
    reads g
  {
    && g.Length0 > 0 && g.Length1 > 0
    && forall r, c :: 0 <= r < g.Length0 && 0 <= c < g.Length1 ==> TileOk(g[r, c], r, c)
  }

  /** The four lists the replay header records about the initial map. */
  datatype InitialLists = InitialLists(
    passability: seq<Pos>,
    metal: seq<(int, int, int)>,
    terraformed: seq<(int, int, int)>,
    visible: seq<(int, int, int)>)
  {
    /** These lists followed by those of `o`. */
    function Then(o: InitialLists): InitialLists {
      InitialLists(passability + o.passability, metal + o.metal,
                   terraformed + o.terraformed, visible + o.visible)
    }
  }

  const NO_LISTS := InitialLists([], [], [], [])

  /**
   * What one tile contributes: its position if impassable, else its yield if
   * mining, else its level if nonzero; and (r, c, team value) for each team that
   * can see it, red first.
   */
  function CellLists(t: Tile, r: int, c: int): InitialLists {
    InitialLists(
      if t.state == Impassable then [(r, c)] else [],
      if t.state != Impassable && t.state == Mining then [(r, c, t.mining)] else [],
      if t.state != Impassable && t.state != Mining && t.terraform != 0 then [(r, c, t.terraform)] else [],
      (if !t.fogRed then [(r, c, TeamValue(Red))] else []) +
      (if !t.fogBlue then [(r, c, TeamValue(Blue))] else []))
  }

  /**
   * The contributions of every tile before (r, c) in row-major order: whole rows
   * above r, then the first c tiles of row r.
   */
  function Prefix(g: array2<Tile>, r: int, c: int): InitialLists
    requires 0 <= r <= g.Length0 && 0 <= c <= g.Length1 && (r == g.Length0 ==> c == 0)
    reads g
    decreases r, c
  {
    if c > 0 then Prefix(g, r, c - 1).Then(CellLists(g[r, c - 1], r, c - 1))
    else if r == 0 then NO_LISTS
    else Prefix(g, r - 1, g.Length1)
  }

  /** (r, c) is on the grid and lies from (m0, n0) up to, not including, (m, n) in row-major order. */
  predicate Between(g: array2<Tile>, m0: int, n0: int, m: int, n: int, r: int, c: int) {
    && 0 <= r < g.Length0 && 0 <= c < g.Length1
    && (m0 < r || (m0 == r && n0 <= c))
    && (r < m || (r == m && c < n))
  }

  /** `s` holds exactly the impassable positions of the region. */
  ghost predicate PassabilityDescribes(g: array2<Tile>, s: seq<Pos>, m0: int, n0: int, m: int, n: int)
    reads g
  {
    forall p: Pos :: p in s <==> Between(g, m0, n0, m, n, p.0, p.1) && g[p.0, p.1].state == Impassable
  }

  /** `s` holds exactly (r, c, yield) for the mining tiles of the region. */
  ghost predicate MetalDescribes(g: array2<Tile>, s: seq<(int, int, int)>, m0: int, n0: int, m: int, n: int)
    reads g
  {
    forall e: (int, int, int) :: e in s <==>
      Between(g, m0, n0, m, n, e.0, e.1) && g[e.0, e.1].state == Mining && e.2 == g[e.0, e.1].mining
  }

  /**
   * `s` holds exactly (r, c, level) for the tiles of the region that are neither
   * impassable nor mining and have a nonzero level.
   */
  ghost predicate TerraformedDescribes(g: array2<Tile>, s: seq<(int, int, int)>, m0: int, n0: int, m: int, n: int)
    reads g
  {
    forall e: (int, int, int) :: e in s <==>
      Between(g, m0, n0, m, n, e.0, e.1) && g[e.0, e.1].state != Impassable && g[e.0, e.1].state != Mining &&
      g[e.0, e.1].terraform != 0 && e.2 == g[e.0, e.1].terraform
  }

  /** `s` holds exactly (r, c, team value) for each tile of the region and each team that sees it. */
  ghost predicate VisibleDescribes(g: array2<Tile>, s: seq<(int, int, int)>, m0: int, n0: int, m: int, n: int)
    reads g
  {
    forall e: (int, int, int) :: e in s <==>
      Between(g, m0, n0, m, n, e.0, e.1) &&
      ((e.2 == TeamValue(Red) && !g[e.0, e.1].fogRed) || (e.2 == TeamValue(Blue) && !g[e.0, e.1].fogBlue))
  }

  /** What the four lists of the tiles from (m0, n0) up to (m, n) hold. */
  ghost predicate ListsDescribe(g: array2<Tile>, L: InitialLists, m0: int, n0: int, m: int, n: int)
    reads g
  {
    && PassabilityDescribes(g, L.passability, m0, n0, m, n)
    && MetalDescribes(g, L.metal, m0, n0, m, n)
    && TerraformedDescribes(g, L.terraformed, m0, n0, m, n)
    && VisibleDescribes(g, L.visible, m0, n0, m, n)
  }

  /** (m0, n0) comes no later than (m, n) in row-major order. */
  predicate NotAfter(m0: int, n0: int, m: int, n: int) {
    m0 < m || (m0 == m && n0 <= n)
  }

  /** Adjacent regions join: their passability entries concatenate. */
  lemma JoinPassability(g: array2<Tile>, s: seq<Pos>, t: seq<Pos>, m0: int, n0: int, m1: int, n1: int, m2: int, n2: int)
    requires NotAfter(m0, n0, m1, n1) && NotAfter(m1, n1, m2, n2)
    requires PassabilityDescribes(g, s, m0, n0, m1, n1) && PassabilityDescribes(g, t, m1, n1, m2, n2)
    ensures PassabilityDescribes(g, s + t, m0, n0, m2, n2)
  {
  }

  /** Adjacent regions join: their metal entries concatenate. */
  lemma JoinMetal(g: array2<Tile>, s: seq<(int, int, int)>, t: seq<(int, int, int)>, m0: int, n0: int, m1: int, n1: int, m2: int, n2: int)
    requires NotAfter(m0, n0, m1, n1) && NotAfter(m1, n1, m2, n2)
    requires MetalDescribes(g, s, m0, n0, m1, n1) && MetalDescribes(g, t, m1, n1, m2, n2)
    ensures MetalDescribes(g, s + t, m0, n0, m2, n2)
  {
  }

  /** Adjacent regions join: their terraformed entries concatenate. */
  lemma JoinTerraformed(g: array2<Tile>, s: seq<(int, int, int)>, t: seq<(int, int, int)>, m0: int, n0: int, m1: int, n1: int, m2: int, n2: int)
    requires NotAfter(m0, n0, m1, n1) && NotAfter(m1, n1, m2, n2)
    requires TerraformedDescribes(g, s, m0, n0, m1, n1) && TerraformedDescribes(g, t, m1, n1, m2, n2)
    ensures TerraformedDescribes(g, s + t, m0, n0, m2, n2)
  {
  }

  /** Adjacent regions join: their visible entries concatenate. */
  lemma JoinVisible(g: array2<Tile>, s: seq<(int, int, int)>, t: seq<(int, int, int)>, m0: int, n0: int, m1: int, n1: int, m2: int, n2: int)
    requires NotAfter(m0, n0, m1, n1) && NotAfter(m1, n1, m2, n2)
    requires VisibleDescribes(g, s, m0, n0, m1, n1) && VisibleDescribes(g, t, m1, n1, m2, n2)
    ensures VisibleDescribes(g, s + t, m0, n0, m2, n2)
  {
  }

  /** Adjacent regions join: their lists concatenate. */
  lemma Join(g: array2<Tile>, L: InitialLists, L': InitialLists, m0: int, n0: int, m1: int, n1: int, m2: int, n2: int)
    requires NotAfter(m0, n0, m1, n1) && NotAfter(m1, n1, m2, n2)
    requires ListsDescribe(g, L, m0, n0, m1, n1) && ListsDescribe(g, L', m1, n1, m2, n2)
    ensures ListsDescribe(g, L.Then(L'), m0, n0, m2, n2)
  {
    JoinPassability(g, L.passability, L'.passability, m0, n0, m1, n1, m2, n2);
    JoinMetal(g, L.metal, L'.metal, m0, n0, m1, n1, m2, n2);
    JoinTerraformed(g, L.terraformed, L'.terraformed, m0, n0, m1, n1, m2, n2);
    JoinVisible(g, L.visible, L'.visible, m0, n0, m1, n1, m2, n2);
  }

  /** One tile's contributions describe the one-tile region. */
  lemma CellDescribes(g: array2<Tile>, r: int, c: int)
    requires 0 <= r < g.Length0 && 0 <= c < g.Length1
    ensures ListsDescribe(g, CellLists(g[r, c], r, c), r, c, r, c + 1)
  {
  }

  /** The empty lists describe an empty region. */
  lemma EmptyDescribes(g: array2<Tile>, m: int, n: int)
    ensures ListsDescribe(g, NO_LISTS, m, n, m, n)
  {
  }

  /** The end of row r is the start of row r + 1. */
  lemma RowEnd(g: array2<Tile>, L: InitialLists, r: int)
    requires ListsDescribe(g, L, 0, 0, r, g.Length1)
    ensures ListsDescribe(g, L, 0, 0, r + 1, 0)
  {
    assert forall i, j :: Between(g, 0, 0, r, g.Length1, i, j) <==> Between(g, 0, 0, r + 1, 0, i, j);
  }

  /** The scan up to (r, c) lists exactly the matching tiles before (r, c). */
  lemma {:induction false} PrefixMembers(g: array2<Tile>, r: int, c: int)
    requires 0 <= r <= g.Length0 && 0 <= c <= g.Length1 && (r == g.Length0 ==> c == 0)
    ensures ListsDescribe(g, Prefix(g, r, c), 0, 0, r, c)
    decreases r, c
  {
    if c > 0 {
      PrefixMembers(g, r, c - 1);
      PrefixCellStep(g, Prefix(g, r, c - 1), r, c);
    } else if r == 0 {
      EmptyDescribes(g, 0, 0);
    } else {
      PrefixMembers(g, r - 1, g.Length1);
      RowEnd(g, Prefix(g, r - 1, g.Length1), r - 1);
    }
  }

  /** Scanning one more tile of a row adds exactly that tile's contributions. */
  lemma PrefixCellStep(g: array2<Tile>, L: InitialLists, r: int, c: int)
    requires 0 <= r < g.Length0 && 0 < c <= g.Length1
    requires ListsDescribe(g, L, 0, 0, r, c - 1)
    ensures ListsDescribe(g, L.Then(CellLists(g[r, c - 1], r, c - 1)), 0, 0, r, c)
  {
    CellDescribes(g, r, c - 1);
    Join(g, L, CellLists(g[r, c - 1], r, c - 1), 0, 0, r, c - 1, r, c);
  }

  /**
   * (i, j) lies in the 3x3 block around (r, c) and comes before offset (dr, dc)
   * in the block's row-major order.
   */
  predicate Swept(r: int, c: int, dr: int, dc: int, i: int, j: int) {
    Near((r, c), (i, j)) && (i - r < dr || (i - r == dr && j - c < dc))
  }

  /** Exploring changes only fog, so a loaded tile stays loaded. */
  lemma ExploreKeepsOk(t: Tile, r: int, c: int, team: Team)
    requires TileOk(t, r, c)
    ensures TileOk(t.Explore(team).0, r, c)
  {
  }

  /** Row-major order on positions. */
  predicate Before(p: Pos, q: Pos) {
    p.0 < q.0 || (p.0 == q.0 && p.1 < q.1)
  }

  /** One tile of the scan: one elif chain and two visibility checks. */
  method ScanTile(tile: Tile, row: int, col: int) returns (cell: InitialLists)
    ensures cell == CellLists(tile, row, col)
  {
    var passability, metal, terraformed, visible := [], [], [], [];
    if tile.state == Impassable {
      passability := [(row, col)];
    } else if tile.state == Mining {
      metal := [(row, col, tile.mining)];
    } else if tile.terraform != 0 {
      terraformed := [(row, col, tile.terraform)];
    }
    if !tile.fogRed {
      visible := visible + [(row, col, TeamValue(Red))];
    }
    if !tile.fogBlue {
      visible := visible + [(row, col, TeamValue(Blue))];
    }
    cell := InitialLists(passability, metal, terraformed, visible);
  }

  /** The row-major scan that builds the initial lists, tile by tile. */
  method ScanInitialLists(g: array2<Tile>) returns (lists: InitialLists)
    ensures lists == Prefix(g, g.Length0, 0)
  {
    lists := NO_LISTS;
    var row := 0;
    while row < g.Length0
      invariant 0 <= row <= g.Length0
      invariant lists == Prefix(g, row, 0)
    {
      var col := 0;
      while col < g.Length1
        invariant 0 <= col <= g.Length1
        invariant lists == Prefix(g, row, col)
      {
        var cell := ScanTile(g[row, col], row, col);
        lists := lists.Then(cell);
        col := col + 1;
      }
      row := row + 1;
    }
  }

  class Map {
    const height: int
    const width: int
    const tiles: array2<Tile>
    const initial: InitialLists

    ghost predicate Valid()
      reads this, tiles
    {
      && tiles.Length0 == height && tiles.Length1 == width
      && GridOk(tiles)
    }

    predicate InBounds(r: int, c: int) {
      0 <= r < height && 0 <= c < width
    }

    /**
     * Takes ownership of a loaded grid and records the initial lists by a
     * row-major scan.
     */
    constructor (g: array2<Tile>)
      requires GridOk(g)
      ensures Valid() && tiles == g
      ensures height == g.Length0 && width == g.Length1
      ensures initial == Prefix(g, g.Length0, 0)
      ensures ListsDescribe(g, initial, 0, 0, height, 0)
    {
      var lists := ScanInitialLists(g);
      height, width, tiles, initial := g.Length0, g.Length1, g, lists;
      PrefixMembers(g, g.Length0, 0);
    }

    /** Whether (r, c) is `team`'s ground, whatever the fog; None off the map. */
    function IsTerraformed(team: Team, r: int, c: int): (res: Option<bool>)
      requires Valid()
      reads this, tiles
      ensures res.None? <==> !InBounds(r, c)
      ensures res.Some? ==> (res.value <==> tiles[r, c].terraform * TerraformStep(team) > 0)
      ensures res == Some(true) ==> tiles[r, c].state == Terraformable
    {
      if r < 0 || r >= height || c < 0 || c >= width then None
      else
        var terraform := tiles[r, c].terraform;
        if team == Red then Some(terraform < 0) else Some(terraform > 0)
    }

    /** Whether (r, c) is a mining tile, whatever the fog; None off the map. */
    function IsMineable(r: int, c: int): (res: Option<bool>)
      requires Valid()
      reads this, tiles
      ensures res.None? <==> !InBounds(r, c)
      ensures res.Some? ==> (res.value <==> tiles[r, c].state == Mining)
    {
      if r < 0 || r >= height || c < 0 || c >= width then None
      else Some(tiles[r, c].state == Mining)
    }

    /** The state of (r, c) as `team` sees it: ILLEGAL off the map or under fog. */
    function GetTileState(r: int, c: int, team: Team): (s: TileState)
      requires Valid()
      reads this, tiles
      ensures s == Illegal <==> !InBounds(r, c) || tiles[r, c].IsFogged(team)
      ensures s != Illegal ==> s == tiles[r, c].state
    {
      if r < 0 || r >= height || c < 0 || c >= width then Illegal
      else if tiles[r, c].IsFogged(team) then Illegal
      else tiles[r, c].state
    }

    /**
     * One terraform step on (r, c) for `team`: Ok(None) off the map, an internal
     * error when the tile is fogged for the team or not terraformable, otherwise
     * the tile's own step.
     */
    method Terraform(r: int, c: int, team: Team) returns (res: Result<Option<bool>>)
      requires Valid()
      modifies tiles
      ensures Valid()
      ensures !InBounds(r, c) ==> res == Ok(None) && unchanged(tiles)
      ensures InBounds(r, c) && (old(tiles[r, c]).IsFogged(team) || old(tiles[r, c]).state != Terraformable) ==>
        res == Err(Internal(TerraformFault)) && unchanged(tiles)
      ensures InBounds(r, c) && !old(tiles[r, c]).IsFogged(team) && old(tiles[r, c]).state == Terraformable ==>
        && res == Ok(Some(old(tiles[r, c]).Terraform(team).1))
        && tiles[r, c] == old(tiles[r, c]).Terraform(team).0
      ensures forall i, j {:trigger tiles[i, j]} :: InBounds(i, j) && (i, j) != (r, c) ==> tiles[i, j] == old(tiles[i, j])
    {
      if r < 0 || r >= height || c < 0 || c >= width {
        return Ok(None);
      }
      if GetTileState(r, c, team) == Illegal {
        return Err(Internal(TerraformFault));
      }
      var tile := tiles[r, c];
      if tile.state != Terraformable {
        return Err(Internal(TerraformFault));
      }
      var (t', ok) := tile.Terraform(team);
      tiles[r, c] := t';
      return Ok(Some(ok));
    }

    /**
     * The on-map cells fogged for `team` among the cells of the block around
     * (r, c) before offset (dr, dc), in row-major order.
     */
    function FoggedBefore(r: int, c: int, team: Team, dr: int, dc: int): seq<Pos>
      requires Valid() && -1 <= dr <= 2 && -1 <= dc <= 2 && (dr == 2 ==> dc == -1)
      reads this, tiles
      decreases dr + 1, dc + 1
    {
      if dc == -1 then
        if dr == -1 then [] else FoggedBefore(r, c, team, dr - 1, 2)
      else
        var i, j := r + dr, c + dc - 1;
        FoggedBefore(r, c, team, dr, dc - 1) +
          if InBounds(i, j) && tiles[i, j].IsFogged(team) then [(i, j)] else []
    }

    /** FoggedBefore lists exactly the on-map fogged cells swept before (dr, dc). */
    lemma {:induction false} FoggedBeforeMembers(r: int, c: int, team: Team, dr: int, dc: int)
      requires Valid() && -1 <= dr <= 2 && -1 <= dc <= 2 && (dr == 2 ==> dc == -1)
      ensures forall p :: p in FoggedBefore(r, c, team, dr, dc) <==>
        Swept(r, c, dr, dc, p.0, p.1) && InBounds(p.0, p.1) && tiles[p.0, p.1].IsFogged(team)
      decreases dr + 1, dc + 1
    {
      if dc == -1 {
        if dr != -1 {
          FoggedBeforeMembers(r, c, team, dr - 1, 2);
        }
      } else {
        FoggedBeforeMembers(r, c, team, dr, dc - 1);
      }
    }

    /** FoggedBefore lists its cells in row-major order. */
    lemma {:induction false} FoggedBeforeSorted(r: int, c: int, team: Team, dr: int, dc: int)
      requires Valid() && -1 <= dr <= 2 && -1 <= dc <= 2 && (dr == 2 ==> dc == -1)
      ensures forall i :: 0 <= i < |FoggedBefore(r, c, team, dr, dc)| ==>
        Swept(r, c, dr, dc, FoggedBefore(r, c, team, dr, dc)[i].0, FoggedBefore(r, c, team, dr, dc)[i].1)
      ensures forall i, j :: 0 <= i < j < |FoggedBefore(r, c, team, dr, dc)| ==>
        Before(FoggedBefore(r, c, team, dr, dc)[i], FoggedBefore(r, c, team, dr, dc)[j])
      decreases dr + 1, dc + 1
    {
      if dc == -1 {
        if dr != -1 {
          FoggedBeforeSorted(r, c, team, dr - 1, 2);
        }
      } else {
        FoggedBeforeSorted(r, c, team, dr, dc - 1);
        var s := FoggedBefore(r, c, team, dr, dc - 1);
        var q := (r + dr, c + dc - 1);
        var t := FoggedBefore(r, c, team, dr, dc);
        assert t == s || t == s + [q];
        forall i, j | 0 <= i < j < |t|
          ensures Before(t[i], t[j])
        {
          if j < |s| {
            assert t[i] == s[i] && t[j] == s[j];
          } else {
            assert t[i] == s[i] && t[j] == q;
            assert Swept(r, c, dr, dc - 1, s[i].0, s[i].1);
          }
        }
        forall i | 0 <= i < |t|
          ensures Swept(r, c, dr, dc, t[i].0, t[i].1)
        {
          if i < |s| {
            assert t[i] == s[i];
          }
        }
      }
    }

    /** The 3x3 sweep of explore: every on-map cell of the block is cleared for `team`, the fogged ones listed in row-major order. */
    method Sweep(r: int, c: int, team: Team) returns (explored: seq<Pos>)
      requires Valid()
      modifies tiles
      ensures explored == old(FoggedBefore(r, c, team, 2, -1))
      ensures forall i, j {:trigger tiles[i, j]} :: InBounds(i, j) ==>
        tiles[i, j] == if Near((r, c), (i, j)) then old(tiles[i, j]).Explore(team).0 else old(tiles[i, j])
    {
      explored := [];
      for addRow := -1 to 2
        invariant explored == old(FoggedBefore(r, c, team, addRow, -1))
        invariant forall i, j {:trigger tiles[i, j]} :: InBounds(i, j) ==>
          tiles[i, j] == if Swept(r, c, addRow, -1, i, j) then old(tiles[i, j]).Explore(team).0 else old(tiles[i, j])
      {
        for addCol := -1 to 2
          invariant explored == old(FoggedBefore(r, c, team, addRow, addCol))
          invariant forall i, j {:trigger tiles[i, j]} :: InBounds(i, j) ==>
            tiles[i, j] == if Swept(r, c, addRow, addCol, i, j) then old(tiles[i, j]).Explore(team).0 else old(tiles[i, j])
        {
          var newRow, newCol := r + addRow, c + addCol;
          assert InBounds(newRow, newCol) ==> tiles[newRow, newCol] == old(tiles[newRow, newCol]);
          var found := SweepCell(newRow, newCol, team);
          explored := explored + found;
        }
      }
    }

    /** One cell of a sweep: an on-map cell loses `team`'s fog, and is reported when it had it. */
    method SweepCell(i: int, j: int, team: Team) returns (found: seq<Pos>)
      requires tiles.Length0 == height && tiles.Length1 == width
      modifies tiles
      ensures found == if InBounds(i, j) && old(tiles[i, j]).IsFogged(team) then [(i, j)] else []
      ensures forall a, b {:trigger tiles[a, b]} :: InBounds(a, b) ==>
        tiles[a, b] == if a == i && b == j then old(tiles[a, b]).Explore(team).0 else old(tiles[a, b])
    {
      found := [];
      if 0 <= j < width && 0 <= i < height {
        var (t', wasFogged) := tiles[i, j].Explore(team);
        tiles[i, j] := t';
        if wasFogged {
          found := [(i, j)];
        }
      }
    }

    /**
     * An explorer's sweep from (r, c): Ok(None) off the map, an internal error
     * when the centre is fogged for `team` or impassable, otherwise the fogged
     * on-map cells of the 3x3 block in row-major order, all of which `team` now
     * sees.
     */
    method Explore(r: int, c: int, team: Team) returns (res: Result<Option<seq<Pos>>>)
      requires Valid()
      modifies tiles
      ensures Valid()
      ensures !InBounds(r, c) ==> res == Ok(None) && unchanged(tiles)
      ensures InBounds(r, c) && (old(tiles[r, c]).IsFogged(team) || old(tiles[r, c]).state == Impassable) ==>
        res == Err(Internal(ExploreFault)) && unchanged(tiles)
      ensures InBounds(r, c) && !old(tiles[r, c]).IsFogged(team) && old(tiles[r, c]).state != Impassable ==>
        && res == Ok(Some(old(FoggedBefore(r, c, team, 2, -1))))
        && forall i, j {:trigger tiles[i, j]} :: InBounds(i, j) ==>
             tiles[i, j] == if Near((r, c), (i, j)) then old(tiles[i, j]).Explore(team).0 else old(tiles[i, j])
    {
      if r < 0 || r >= height || c < 0 || c >= width {
        return Ok(None);
      }
      if GetTileState(r, c, team) == Illegal {
        return Err(Internal(ExploreFault));
      }
      if tiles[r, c].state == Impassable {
        return Err(Internal(ExploreFault));
      }
      var explored := Sweep(r, c, team);
      forall i, j | InBounds(i, j)
        ensures TileOk(tiles[i, j], i, j)
      {
        ExploreKeepsOk(old(tiles[i, j]), i, j, team);
      }
      return Ok(Some(explored));
    }

    /**
     * What a miner at (r, c) collects: an internal error off the map or under
     * fog, the tile's yield on a mining tile, and nothing elsewhere.
     */
    function Mine(r: int, c: int, team: Team): (res: Result<seq<int>>)
      requires Valid()
      reads this, tiles
      ensures res.Err? <==> GetTileState(r, c, team) == Illegal
      ensures res.Err? ==> res.error == Internal(MineFault)
      ensures res.Ok? ==> res.value == if tiles[r, c].state == Mining then [tiles[r, c].mining] else []
    {
      if r < 0 || r >= height || c < 0 || c >= width then Err(Internal(MineFault))
      else if GetTileState(r, c, team) == Illegal then Err(Internal(MineFault))
      else if tiles[r, c].state != Mining then Ok([])
      else Ok([tiles[r, c].mining])
    }
  }
}
