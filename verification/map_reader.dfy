/**
 * Building a board from a map file (class MapReader of src/map.py): the cell
 * checks of generateMap, the initial fog, the breadth-first spread of
 * visibility around each base (visualizeBaseTiles), the reflection helper used
 * by the random map generator, and loading a validated file into a Map.
 */
module MapReader {
  import opened Constants
  import opened Errors
  import opened Grid
  import opened Tiles
  import opened MapValidate
  import Maps

  /** (r, c) is a cell of the grid. */
  predicate OnGrid(g: array2<Tile>, p: Pos) {
    0 <= p.0 < g.Length0 && 0 <= p.1 < g.Length1
  }

  /** Every cell of a height x width grid (the spread's termination measure). */
  ghost function Cells(height: int, width: int): set<Pos> {
    set i, j | 0 <= i < height && 0 <= j < width :: (i, j)
  }

  /** A pending visit: (row, col, depth left). */
  type Visit = (int, int, int)

  /** The positions of the pending visits. */
  ghost function Queued(queue: seq<Visit>): set<Pos> {
    if queue == [] then {} else {(queue[0].0, queue[0].1)} + Queued(queue[1..])
  }

  lemma {:induction false} QueuedAppend(queue: seq<Visit>, v: Visit)
    ensures Queued(queue + [v]) == Queued(queue) + {(v.0, v.1)}
  {
    if queue != [] {
      assert (queue + [v])[1..] == queue[1..] + [v];
      QueuedAppend(queue[1..], v);
    }
  }

  /** Clearing fog twice is clearing it once. */
  lemma ExploreTwice(t: Tile, team: Team)
    ensures t.Explore(team).0.Explore(team).0 == t.Explore(team).0
  {
  }

  /**
   * What one expansion step leaves: the old visits kept in order, then one new
   * visit with depth `depth - 1` for each in-bounds neighbour of `cur` not
   * visited before, each now marked visited; every in-bounds neighbour is then
   * visited.
   */
  ghost predicate NeighboursQueued(height: int, width: int, cur: Pos, depth: int,
                                   visited: set<Pos>, queue: seq<Visit>, visited': set<Pos>, queue': seq<Visit>)
  {
    && (forall p {:trigger p in visited} :: p in visited ==> p in visited')
    && (forall p {:trigger p in visited'} :: p in visited' ==> p in visited || (0 <= p.0 < height && 0 <= p.1 < width))
    && (visited' == visited ==> queue' == queue)
    && |queue| <= |queue'| && queue'[..|queue|] == queue
    && (forall k :: |queue| <= k < |queue'| ==>
          && queue'[k].2 == depth - 1 && Adjacent(cur, (queue'[k].0, queue'[k].1))
          && (queue'[k].0, queue'[k].1) in visited' && (queue'[k].0, queue'[k].1) !in visited)
    && (forall p {:trigger p in visited'} :: p in visited' && p !in visited ==> p in Queued(queue'))
    && (forall p {:trigger p in Queued(queue)} :: p in Queued(queue) ==> p in Queued(queue'))
    && (forall i, j {:trigger (i, j) in visited'} :: 0 <= i < height && 0 <= j < width && Adjacent(cur, (i, j)) ==> (i, j) in visited')
  }

  /**
   * The `for newDir in Direction` step of the spread: enqueue every in-bounds,
   * not yet visited neighbour of `cur` with one less depth, in direction order.
   */
  method EnqueueNeighbours(height: int, width: int, cur: Pos, depth: int, visited: set<Pos>, queue: seq<Visit>)
    returns (visited': set<Pos>, queue': seq<Visit>)
    ensures NeighboursQueued(height, width, cur, depth, visited, queue, visited', queue')
  {
    visited', queue' := visited, queue;
    for k := 0 to 8
      invariant forall p {:trigger p in visited} :: p in visited ==> p in visited'
      invariant forall p {:trigger p in visited'} :: p in visited' ==> p in visited || (0 <= p.0 < height && 0 <= p.1 < width)
      invariant visited' == visited ==> queue' == queue
      invariant |queue| <= |queue'| && queue'[..|queue|] == queue
      invariant forall k :: |queue| <= k < |queue'| ==>
        && queue'[k].2 == depth - 1 && Adjacent(cur, (queue'[k].0, queue'[k].1))
        && (queue'[k].0, queue'[k].1) in visited' && (queue'[k].0, queue'[k].1) !in visited
      invariant forall p {:trigger p in visited'} :: p in visited' && p !in visited ==> p in Queued(queue')
      invariant forall p {:trigger p in Queued(queue)} :: p in Queued(queue) ==> p in Queued(queue')
      invariant forall m :: 0 <= m < k ==>
        var q := Move(cur, DIRECTIONS[m]);
        0 <= q.0 < height && 0 <= q.1 < width ==> q in visited'
    {
      var d := DIRECTIONS[k];
      var newRow, newCol := cur.0 + d.DRow(), cur.1 + d.DCol();
      MoveIsAdjacent(cur, d);
      if 0 <= newRow < height && 0 <= newCol < width && (newRow, newCol) !in visited' {
        QueuedAppend(queue', (newRow, newCol, depth - 1));
        queue' := queue' + [(newRow, newCol, depth - 1)];
        visited' := visited' + {(newRow, newCol)};
      }
    }
    forall i, j | 0 <= i < height && 0 <= j < width && Adjacent(cur, (i, j))
      ensures (i, j) in visited'
    {
      var d := AdjacentIsMove(cur, (i, j));
      var m := DirectionIndex(d);
    }
  }

  /**
   * The spread's bookkeeping: everything visited is on the grid and either
   * already cleared or still queued; queued depths bound the distance from the
   * start; until the start is dequeued it is the only visit; once it is, its
   * whole block has been visited (unless the radius is 0).
   */
  ghost predicate SpreadInv(height: int, width: int, s: Pos, radius: int,
                            visited: set<Pos>, queue: seq<Visit>, cleared: set<Pos>)
  {
    && s in visited
    && (forall p {:trigger p in visited} :: p in visited ==> 0 <= p.0 < height && 0 <= p.1 < width)
    && (forall k :: 0 <= k < |queue| ==> (queue[k].0, queue[k].1) in visited)
    && (forall p {:trigger p in visited} :: p in visited ==> p in cleared || p in Queued(queue))
    && (forall p {:trigger p in cleared} :: p in cleared ==> p in visited)
    && (radius >= 0 ==> forall k :: 0 <= k < |queue| ==>
          0 <= queue[k].2 && Cheb(s, (queue[k].0, queue[k].1)) <= radius - queue[k].2)
    && (radius >= 0 ==> forall p {:trigger p in cleared} :: p in cleared ==> Cheb(s, p) <= radius)
    && (s !in cleared ==> queue == [(s.0, s.1, radius)])
    && (s in cleared && radius != 0 ==> forall i, j {:trigger (i, j) in visited} ::
          0 <= i < height && 0 <= j < width && Near(s, (i, j)) ==> (i, j) in visited)
  }

  /** Dequeuing the front visit, clearing it, and (depth permitting) enqueuing its neighbours keeps SpreadInv. */
  lemma SpreadStep(height: int, width: int, s: Pos, radius: int,
                   visited: set<Pos>, queue: seq<Visit>, cleared: set<Pos>, visited': set<Pos>, queue': seq<Visit>)
    requires SpreadInv(height, width, s, radius, visited, queue, cleared) && |queue| > 0
    requires queue[0].2 == 0 ==> visited' == visited && queue' == queue[1..]
    requires queue[0].2 != 0 ==>
      NeighboursQueued(height, width, (queue[0].0, queue[0].1), queue[0].2, visited, queue[1..], visited', queue')
    ensures SpreadInv(height, width, s, radius, visited', queue', cleared + {(queue[0].0, queue[0].1)})
    ensures (visited' == visited && |queue'| < |queue|) || Cells(height, width) - visited' < Cells(height, width) - visited
  {
    var cur := (queue[0].0, queue[0].1);
    var cleared' := cleared + {cur};
    assert Queued(queue) == {cur} + Queued(queue[1..]);
    if queue[0].2 != 0 {
      forall k | 0 <= k < |queue'| && radius >= 0
        ensures 0 <= queue'[k].2 && Cheb(s, (queue'[k].0, queue'[k].1)) <= radius - queue'[k].2
      {
        if k < |queue| - 1 {
          assert queue'[k] == queue[k + 1];
        }
      }
      forall k | 0 <= k < |queue'|
        ensures (queue'[k].0, queue'[k].1) in visited'
      {
        if k < |queue| - 1 {
          assert queue'[k] == queue[k + 1];
        }
      }
      if visited' != visited {
        var p :| p in visited' && p !in visited;
        assert p in Cells(height, width);
      }
      if radius != 0 {
        forall i, j | 0 <= i < height && 0 <= j < width && Near(s, (i, j))
          ensures (i, j) in visited'
        {
          if s in cleared {
            assert (i, j) in visited;
          } else if (i, j) != s {
            assert Adjacent(cur, (i, j));
          }
        }
      }
    }
  }

  /** The number of king moves from the start `s` to a pending visit. */
  function Dist(s: Pos, v: Visit): nat {
    Cheb(s, (v.0, v.1))
  }

  lemma {:induction false} QueuedIndex(queue: seq<Visit>, p: Pos) returns (k: nat)
    requires p in Queued(queue)
    ensures k < |queue| && (queue[k].0, queue[k].1) == p
  {
    if (queue[0].0, queue[0].1) == p {
      k := 0;
    } else {
      k := QueuedIndex(queue[1..], p);
      k := k + 1;
    }
  }

  lemma {:induction false} QueuedFar(s: Pos, queue: seq<Visit>, m: int)
    requires forall k :: 0 <= k < |queue| ==> Dist(s, queue[k]) >= m
    ensures forall p {:trigger p in Queued(queue)} :: p in Queued(queue) ==> Cheb(s, p) >= m
  {
    if queue != [] {
      QueuedFar(s, queue[1..], m);
    }
  }

  function Sign(x: int): int {
    if x > 0 then 1 else if x < 0 then -1 else 0
  }

  /** The king move from `q` that heads straight for `s`. */
  function Toward(s: Pos, q: Pos): Pos {
    (q.0 + Sign(s.0 - q.0), q.1 + Sign(s.1 - q.1))
  }

  /** Stepping toward `s` is one king move, comes one move closer, and stays between `q` and `s`. */
  lemma TowardCloser(s: Pos, q: Pos)
    requires q != s
    ensures Adjacent(q, Toward(s, q)) && Cheb(s, Toward(s, q)) + 1 == Cheb(s, q)
    ensures s.0 <= Toward(s, q).0 <= q.0 || q.0 <= Toward(s, q).0 <= s.0
    ensures s.1 <= Toward(s, q).1 <= q.1 || q.1 <= Toward(s, q).1 <= s.1
  {
  }

  /** Queued distances from the start never decrease and grow by at most one along the queue. */
  ghost predicate Ordered(s: Pos, queue: seq<Visit>) {
    forall i, j :: 0 <= i < j < |queue| ==> Dist(s, queue[i]) <= Dist(s, queue[j]) <= Dist(s, queue[i]) + 1
  }

  /** Each visit's depth left is the radius minus its distance from the start. */
  ghost predicate DepthExact(s: Pos, radius: int, queue: seq<Visit>) {
    forall k :: 0 <= k < |queue| ==> queue[k].2 == radius - Dist(s, queue[k])
  }

  /** Every cell no farther from the start than the front visit has been visited. */
  ghost predicate FrontVisited(height: int, width: int, s: Pos, visited: set<Pos>, queue: seq<Visit>) {
    |queue| > 0 ==> forall i, j {:trigger (i, j) in visited} ::
      0 <= i < height && 0 <= j < width && Cheb(s, (i, j)) <= Dist(s, queue[0]) ==> (i, j) in visited
  }

  /** A cleared cell off the rim of the radius has had all its neighbours visited. */
  ghost predicate RimExpanded(height: int, width: int, s: Pos, radius: int, visited: set<Pos>, cleared: set<Pos>) {
    forall p, i, j {:trigger p in cleared, (i, j) in visited} ::
      p in cleared && Cheb(s, p) != radius && 0 <= i < height && 0 <= j < width && Adjacent(p, (i, j)) ==> (i, j) in visited
  }

  /** The breadth-first order of the spread. */
  ghost predicate Layered(height: int, width: int, s: Pos, radius: int,
                          visited: set<Pos>, queue: seq<Visit>, cleared: set<Pos>)
  {
    && Ordered(s, queue)
    && DepthExact(s, radius, queue)
    && FrontVisited(height, width, s, visited, queue)
    && RimExpanded(height, width, s, radius, visited, cleared)
  }

  /** What one step of the spread leaves, as LayeredStep and its parts take it. */
  ghost predicate StepTaken(height: int, width: int, s: Pos, radius: int,
                            visited: set<Pos>, queue: seq<Visit>, cleared: set<Pos>, visited': set<Pos>, queue': seq<Visit>)
  {
    && SpreadInv(height, width, s, radius, visited, queue, cleared) && |queue| > 0
    && Layered(height, width, s, radius, visited, queue, cleared)
    && (queue[0].2 == 0 ==> visited' == visited && queue' == queue[1..])
    && (queue[0].2 != 0 ==>
          NeighboursQueued(height, width, (queue[0].0, queue[0].1), queue[0].2, visited, queue[1..], visited', queue'))
  }

  /** A step keeps the order and the depths: the visits it adds lie one ring beyond the front. */
  lemma StepOrdered(height: int, width: int, s: Pos, radius: int,
                    visited: set<Pos>, queue: seq<Visit>, cleared: set<Pos>, visited': set<Pos>, queue': seq<Visit>)
    requires StepTaken(height, width, s, radius, visited, queue, cleared, visited', queue')
    ensures |queue'| >= |queue| - 1 && queue'[..|queue| - 1] == queue[1..]
    ensures forall k :: |queue| - 1 <= k < |queue'| ==> Dist(s, queue'[k]) == Dist(s, queue[0]) + 1
    ensures Ordered(s, queue') && DepthExact(s, radius, queue')
  {
    var d := Dist(s, queue[0]);
    var n := |queue| - 1;
    assert forall k :: 0 <= k < n ==> queue'[k] == queue[k + 1];
    forall k | n <= k < |queue'|
      ensures Dist(s, queue'[k]) == d + 1
    {
      var p := (queue'[k].0, queue'[k].1);
      assert Cheb(s, p) <= d ==> p in visited;
    }
    forall i, j | 0 <= i < j < |queue'|
      ensures Dist(s, queue'[i]) <= Dist(s, queue'[j]) <= Dist(s, queue'[i]) + 1
    {
      if j < n {
        assert queue'[i] == queue[i + 1] && queue'[j] == queue[j + 1];
      } else if i < n {
        assert queue'[i] == queue[i + 1];
        assert d <= Dist(s, queue[i + 1]);
      }
    }
  }

  /** A step keeps every off-rim cleared cell expanded, the one it clears included. */
  lemma StepRim(height: int, width: int, s: Pos, radius: int,
                visited: set<Pos>, queue: seq<Visit>, cleared: set<Pos>, visited': set<Pos>, queue': seq<Visit>)
    requires StepTaken(height, width, s, radius, visited, queue, cleared, visited', queue')
    ensures RimExpanded(height, width, s, radius, visited', cleared + {(queue[0].0, queue[0].1)})
  {
    var cur := (queue[0].0, queue[0].1);
    forall p, i, j | p in cleared + {cur} && Cheb(s, p) != radius && 0 <= i < height && 0 <= j < width && Adjacent(p, (i, j))
      ensures (i, j) in visited'
    {
      if p != cur {
        assert (i, j) in visited;
      }
    }
  }

  /**
   * A step keeps every cell up to the front visited: when the front moves out
   * one ring, each cell of the new ring neighbours a cell of the old one, which
   * is no longer queued, so it was cleared off the rim and expanded.
   */
  lemma StepFront(height: int, width: int, s: Pos, radius: int,
                  visited: set<Pos>, queue: seq<Visit>, cleared: set<Pos>, visited': set<Pos>, queue': seq<Visit>)
    requires StepTaken(height, width, s, radius, visited, queue, cleared, visited', queue')
    requires |queue'| >= |queue| - 1 && queue'[..|queue| - 1] == queue[1..]
    requires forall k :: |queue| - 1 <= k < |queue'| ==> Dist(s, queue'[k]) == Dist(s, queue[0]) + 1
    requires Ordered(s, queue') && DepthExact(s, radius, queue')
    requires radius >= 0 ==> forall k :: 0 <= k < |queue'| ==> 0 <= queue'[k].2
    requires RimExpanded(height, width, s, radius, visited', cleared + {(queue[0].0, queue[0].1)})
    ensures FrontVisited(height, width, s, visited', queue')
  {
    if |queue'| > 0 {
      var cur := (queue[0].0, queue[0].1);
      var d, d' := Dist(s, queue[0]), Dist(s, queue'[0]);
      var rest := queue[1..];
      assert forall k :: 0 <= k < |rest| ==> queue'[k] == rest[k];
      if d' > d {
        // the old ring was not the rim: the new front is still within the radius
        assert radius >= 0 ==> d' <= radius;
        forall k | 0 <= k < |rest|
          ensures Dist(s, rest[k]) >= d'
        {
          assert queue'[k] == rest[k];
        }
        QueuedFar(s, rest, d');
        assert Queued(queue) == {cur} + Queued(rest);
        forall i, j | 0 <= i < height && 0 <= j < width && Cheb(s, (i, j)) <= d'
          ensures (i, j) in visited'
        {
          if Cheb(s, (i, j)) <= d {
            assert (i, j) in visited;
          } else {
            var c := (i, j);
            var t := Toward(s, c);
            TowardCloser(s, c);
            assert t in visited;
            assert Adjacent(t, c);
          }
        }
      } else {
        forall i, j | 0 <= i < height && 0 <= j < width && Cheb(s, (i, j)) <= d'
          ensures (i, j) in visited'
        {
          assert (i, j) in visited;
        }
      }
    }
  }

  /** The spread starts in order, with the start its only visit. */
  lemma SpreadStart(height: int, width: int, s: Pos, radius: int)
    requires 0 <= s.0 < height && 0 <= s.1 < width
    ensures SpreadInv(height, width, s, radius, {s}, [(s.0, s.1, radius)], {})
    ensures Layered(height, width, s, radius, {s}, [(s.0, s.1, radius)], {})
  {
    assert Queued([(s.0, s.1, radius)]) == {s} by {
      assert [(s.0, s.1, radius)][1..] == [];
    }
  }

  /** The spread's step keeps the breadth-first order. */
  lemma LayeredStep(height: int, width: int, s: Pos, radius: int,
                    visited: set<Pos>, queue: seq<Visit>, cleared: set<Pos>, visited': set<Pos>, queue': seq<Visit>)
    requires SpreadInv(height, width, s, radius, visited, queue, cleared) && |queue| > 0
    requires Layered(height, width, s, radius, visited, queue, cleared)
    requires queue[0].2 == 0 ==> visited' == visited && queue' == queue[1..]
    requires queue[0].2 != 0 ==>
      NeighboursQueued(height, width, (queue[0].0, queue[0].1), queue[0].2, visited, queue[1..], visited', queue')
    ensures Layered(height, width, s, radius, visited', queue', cleared + {(queue[0].0, queue[0].1)})
  {
    SpreadStep(height, width, s, radius, visited, queue, cleared, visited', queue');
    StepOrdered(height, width, s, radius, visited, queue, cleared, visited', queue');
    StepRim(height, width, s, radius, visited, queue, cleared, visited', queue');
    StepFront(height, width, s, radius, visited, queue, cleared, visited', queue');
  }

  /** With nothing left to visit, every cell within the radius (every cell, for a negative radius) has been cleared. */
  lemma {:induction false} SpreadReach(height: int, width: int, s: Pos, radius: int, visited: set<Pos>, cleared: set<Pos>, c: Pos)
    requires SpreadInv(height, width, s, radius, visited, [], cleared)
    requires Layered(height, width, s, radius, visited, [], cleared)
    requires 0 <= c.0 < height && 0 <= c.1 < width && (radius < 0 || Cheb(s, c) <= radius)
    ensures c in cleared
    decreases Cheb(s, c)
  {
    assert Queued([]) == {};
    if c != s {
      var t := Toward(s, c);
      TowardCloser(s, c);
      SpreadReach(height, width, s, radius, visited, cleared, t);
      assert Adjacent(t, c);
      assert c in visited;
    }
  }

  lemma SpreadBall(height: int, width: int, s: Pos, radius: int, visited: set<Pos>, cleared: set<Pos>)
    requires SpreadInv(height, width, s, radius, visited, [], cleared)
    requires Layered(height, width, s, radius, visited, [], cleared)
    ensures forall i, j {:trigger (i, j) in cleared} ::
      0 <= i < height && 0 <= j < width && (radius < 0 || Cheb(s, (i, j)) <= radius) ==> (i, j) in cleared
  {
    forall i, j | 0 <= i < height && 0 <= j < width && (radius < 0 || Cheb(s, (i, j)) <= radius)
      ensures (i, j) in cleared
    {
      SpreadReach(height, width, s, radius, visited, cleared, (i, j));
    }
  }

  /** With nothing left to visit, everything visited has been cleared. */
  lemma SpreadDone(height: int, width: int, s: Pos, radius: int, visited: set<Pos>, cleared: set<Pos>)
    requires SpreadInv(height, width, s, radius, visited, [], cleared)
    ensures s in cleared
    ensures radius != 0 ==> forall i, j {:trigger (i, j) in cleared} ::
      0 <= i < height && 0 <= j < width && Near(s, (i, j)) ==> (i, j) in cleared
  {
    assert Queued([]) == {};
    if radius != 0 {
      forall i, j | 0 <= i < height && 0 <= j < width && Near(s, (i, j))
        ensures (i, j) in cleared
      {
        assert (i, j) in visited;
      }
    }
  }


  /**
   * The inner `explore` of visualizeBaseTiles: a breadth-first walk over the
   * grid from (row, col), clearing `team`'s fog on every cell it dequeues and
   * expanding a cell's eight neighbours unless its depth left is 0. Only that
   * fog is cleared; with a non-negative radius nothing farther than `radius`
   * king moves changes; unless the radius is 0 the whole 3x3 block around the
   * start ends up visible.
   */
  method Spread(grid: array2<Tile>, row: int, col: int, team: Team, radius: int)
    requires OnGrid(grid, (row, col))
    modifies grid
    ensures forall i, j {:trigger grid[i, j]} :: 0 <= i < grid.Length0 && 0 <= j < grid.Length1 ==>
      grid[i, j] == old(grid[i, j]) || grid[i, j] == old(grid[i, j]).Explore(team).0
    ensures !grid[row, col].IsFogged(team)
    ensures radius >= 0 ==> forall i, j {:trigger grid[i, j]} ::
      0 <= i < grid.Length0 && 0 <= j < grid.Length1 && grid[i, j] != old(grid[i, j]) ==> Cheb((row, col), (i, j)) <= radius
    ensures radius != 0 ==> forall i, j {:trigger grid[i, j]} ::
      0 <= i < grid.Length0 && 0 <= j < grid.Length1 && Near((row, col), (i, j)) ==> !grid[i, j].IsFogged(team)
    ensures forall i, j {:trigger grid[i, j]} ::
      0 <= i < grid.Length0 && 0 <= j < grid.Length1 && (radius < 0 || Cheb((row, col), (i, j)) <= radius) ==>
        !grid[i, j].IsFogged(team)
    ensures forall i, j {:trigger grid[i, j]} :: 0 <= i < grid.Length0 && 0 <= j < grid.Length1 ==>
      FogCleared(old(grid[i, j]), grid[i, j])
    ensures forall i, j, t {:trigger grid[i, j].IsFogged(t)} ::
      0 <= i < grid.Length0 && 0 <= j < grid.Length1 && old(grid[i, j]).IsFogged(t) && !grid[i, j].IsFogged(t) ==>
        t == team && (radius >= 0 ==> Cheb((row, col), (i, j)) <= radius)
  {
    var height, width := grid.Length0, grid.Length1;
    var visited: set<Pos> := {(row, col)};
    var queue: seq<Visit> := [(row, col, radius)];
    ghost var cleared: set<Pos> := {};
    SpreadStart(height, width, (row, col), radius);
    while |queue| > 0
      invariant SpreadInv(height, width, (row, col), radius, visited, queue, cleared)
      invariant Layered(height, width, (row, col), radius, visited, queue, cleared)
      invariant forall i, j {:trigger grid[i, j]} :: 0 <= i < height && 0 <= j < width && (i, j) in cleared ==>
        grid[i, j] == old(grid[i, j]).Explore(team).0
      invariant forall i, j {:trigger grid[i, j]} :: 0 <= i < height && 0 <= j < width && (i, j) !in cleared ==>
        grid[i, j] == old(grid[i, j])
      decreases Cells(height, width) - visited, |queue|
    {
      var (queueRow, queueCol, depth) := queue[0];
      ExploreTwice(old(grid[queueRow, queueCol]), team);
      var (t', _) := grid[queueRow, queueCol].Explore(team);
      grid[queueRow, queueCol] := t';
      if depth == 0 {
        SpreadStep(height, width, (row, col), radius, visited, queue, cleared, visited, queue[1..]);
        LayeredStep(height, width, (row, col), radius, visited, queue, cleared, visited, queue[1..]);
        queue := queue[1..];
        cleared := cleared + {(queueRow, queueCol)};
        continue;
      }
      var visited', queue' := EnqueueNeighbours(height, width, (queueRow, queueCol), depth, visited, queue[1..]);
      SpreadStep(height, width, (row, col), radius, visited, queue, cleared, visited', queue');
      LayeredStep(height, width, (row, col), radius, visited, queue, cleared, visited', queue');
      visited, queue := visited', queue';
      cleared := cleared + {(queueRow, queueCol)};
    }
    SpreadDone(height, width, (row, col), radius, visited, cleared);
    SpreadBall(height, width, (row, col), radius, visited, cleared);
  }

  /** A base of `team`: a tile of that team's ground (level above 0 for blue, below 0 for red). */
  predicate BaseOf(t: Tile, team: Team) {
    if team == Blue then t.terraform > 0 else t.terraform < 0
  }

  /** `b` is `a` with at most some fog bits cleared. */
  predicate FogCleared(a: Tile, b: Tile) {
    && b == a.(fogBlue := b.fogBlue, fogRed := b.fogRed)
    && (b.fogBlue ==> a.fogBlue)
    && (b.fogRed ==> a.fogRed)
  }


  /**
   * visualizeBaseTiles: an index error on an empty list of rows, an environment
   * error on empty rows; otherwise, scanning in row-major order, a spread of
   * blue's visibility from every blue base and of red's from every red base.
   * Only fog is cleared; with a non-negative radius, a team gains sight only of
   * cells within `radius` of one of its bases; unless the radius is 0 each team
   * sees the whole 3x3 block around each of its bases.
   */
  method VisualizeBaseTiles(grid: array2<Tile>, radius: int) returns (res: Outcome)
    modifies grid
    ensures grid.Length0 == 0 ==> res == Fail(Runtime(IndexError))
    ensures grid.Length0 > 0 && grid.Length1 == 0 ==> res == Fail(Runtime(EnvironmentError))
    ensures grid.Length0 > 0 && grid.Length1 > 0 ==> res == Pass
    ensures forall i, j {:trigger grid[i, j]} :: 0 <= i < grid.Length0 && 0 <= j < grid.Length1 ==>
      FogCleared(old(grid[i, j]), grid[i, j])
    ensures radius >= 0 ==> forall i, j, t {:trigger grid[i, j].IsFogged(t)} ::
      0 <= i < grid.Length0 && 0 <= j < grid.Length1 && old(grid[i, j]).IsFogged(t) && !grid[i, j].IsFogged(t) ==>
        exists bi, bj :: 0 <= bi < grid.Length0 && 0 <= bj < grid.Length1 &&
          BaseOf(old(grid[bi, bj]), t) && Cheb((bi, bj), (i, j)) <= radius
    ensures radius != 0 ==> forall bi, bj, i, j, t {:trigger BaseOf(old(grid[bi, bj]), t), grid[i, j].IsFogged(t)} ::
      && 0 <= bi < grid.Length0 && 0 <= bj < grid.Length1 && 0 <= i < grid.Length0 && 0 <= j < grid.Length1
      && BaseOf(old(grid[bi, bj]), t) && Near((bi, bj), (i, j))
      ==> !grid[i, j].IsFogged(t)
    ensures forall bi, bj, i, j, t {:trigger BaseOf(old(grid[bi, bj]), t), grid[i, j].IsFogged(t)} ::
      && 0 <= bi < grid.Length0 && 0 <= bj < grid.Length1 && 0 <= i < grid.Length0 && 0 <= j < grid.Length1
      && BaseOf(old(grid[bi, bj]), t) && (radius < 0 || Cheb((bi, bj), (i, j)) <= radius)
      ==> !grid[i, j].IsFogged(t)
  {
    if grid.Length0 == 0 {
      return Fail(Runtime(IndexError));
    }
    var height, width := grid.Length0, grid.Length1;
    if width <= 0 || height <= 0 {
      return Fail(Runtime(EnvironmentError));
    }
    for row := 0 to height
      invariant forall i, j {:trigger grid[i, j]} :: 0 <= i < height && 0 <= j < width ==>
        FogCleared(old(grid[i, j]), grid[i, j])
      invariant radius >= 0 ==> forall i, j, t {:trigger grid[i, j].IsFogged(t)} ::
        0 <= i < height && 0 <= j < width && old(grid[i, j]).IsFogged(t) && !grid[i, j].IsFogged(t) ==>
          exists bi, bj :: 0 <= bi < height && 0 <= bj < width &&
            BaseOf(old(grid[bi, bj]), t) && Cheb((bi, bj), (i, j)) <= radius
      invariant forall bi, bj, i, j, t {:trigger BaseOf(old(grid[bi, bj]), t), grid[i, j].IsFogged(t)} ::
        && 0 <= bi < row && 0 <= bj < width && 0 <= i < height && 0 <= j < width
        && BaseOf(old(grid[bi, bj]), t) && (radius < 0 || Cheb((bi, bj), (i, j)) <= radius)
        ==> !grid[i, j].IsFogged(t)
    {
      for col := 0 to width
        invariant forall i, j {:trigger grid[i, j]} :: 0 <= i < height && 0 <= j < width ==>
          FogCleared(old(grid[i, j]), grid[i, j])
        invariant radius >= 0 ==> forall i, j, t {:trigger grid[i, j].IsFogged(t)} ::
          0 <= i < height && 0 <= j < width && old(grid[i, j]).IsFogged(t) && !grid[i, j].IsFogged(t) ==>
            exists bi, bj :: 0 <= bi < height && 0 <= bj < width &&
              BaseOf(old(grid[bi, bj]), t) && Cheb((bi, bj), (i, j)) <= radius
        invariant forall bi, bj, i, j, t {:trigger BaseOf(old(grid[bi, bj]), t), grid[i, j].IsFogged(t)} ::
          && (bi < row || (bi == row && bj < col))
          && 0 <= bi < height && 0 <= bj < width && 0 <= i < height && 0 <= j < width
          && BaseOf(old(grid[bi, bj]), t) && (radius < 0 || Cheb((bi, bj), (i, j)) <= radius)
          ==> !grid[i, j].IsFogged(t)
      {
        var tile := grid[row, col];
        if tile.terraform > 0 || tile.terraform < 0 {
          var team := if tile.terraform > 0 then Blue else Red;
          label pre:
          Spread(grid, row, col, team, radius);
          forall i, j, t | 0 <= i < height && 0 <= j < width && radius >= 0 &&
            old(grid[i, j]).IsFogged(t) && !grid[i, j].IsFogged(t)
            ensures exists bi, bj ::
              0 <= bi < height && 0 <= bj < width && BaseOf(old(grid[bi, bj]), t) && Cheb((bi, bj), (i, j)) <= radius
          {
            if old@pre(grid[i, j]).IsFogged(t) {
              assert BaseOf(old(grid[row, col]), t);
            }
          }
          forall bi, bj, i, j, t |
            && (bi < row || (bi == row && bj <= col))
            && 0 <= bi < height && 0 <= bj < width && 0 <= i < height && 0 <= j < width
            && BaseOf(old(grid[bi, bj]), t) && (radius < 0 || Cheb((bi, bj), (i, j)) <= radius)
            ensures !grid[i, j].IsFogged(t)
          {
            if (bi, bj) != (row, col) {
              assert !old@pre(grid[i, j]).IsFogged(t);
            } else {
              assert BaseOf(old@pre(grid[bi, bj]), t);
            }
          }
        }
      }
    }
    forall bi, bj, i, j, t |
      && 0 <= bi < height && 0 <= bj < width && 0 <= i < height && 0 <= j < width
      && BaseOf(old(grid[bi, bj]), t) && Near((bi, bj), (i, j)) && radius != 0
      ensures !grid[i, j].IsFogged(t)
    {
      assert Cheb((bi, bj), (i, j)) <= 1;
    }
    return Pass;
  }

  /** A cell of the types generateMap accepts: (string, integer, integer). */
  predicate CellTyped(cell: RawCell) {
    |cell| == 3 && cell[0].Str? && cell[1].Int? && cell[2].Int?
  }

  /** Every row reaches column `width` and every cell before it is well typed. */
  predicate WellTyped(arr: RawMap, width: nat) {
    && (forall i :: 0 <= i < |arr| ==> width <= |arr[i]|)
    && (forall i, j :: 0 <= i < |arr| && 0 <= j < width <= |arr[i]| ==> CellTyped(arr[i][j]))
  }

  /**
   * The type check's verdict from (r, c) on, in row-major order over the first
   * `width` columns: a row that ends early is an index error, a cell of the
   * wrong types an invalid map.
   */
  function TypeFaultFrom(arr: RawMap, width: nat, r: nat, c: nat): Outcome
    requires r <= |arr| && c <= width
    decreases |arr| - r, width - c
  {
    if r == |arr| then Pass
    else if c == width then TypeFaultFrom(arr, width, r + 1, 0)
    else if c >= |arr[r]| then Fail(Runtime(IndexError))
    else if !CellTyped(arr[r][c]) then Fail(User(InvalidMap))
    else TypeFaultFrom(arr, width, r, c + 1)
  }

  /** Row `i` reaches column `j` and the cell there is well typed. */
  predicate TypedAt(arr: RawMap, i: nat, j: nat)
    requires i < |arr|
  {
    j < |arr[i]| && CellTyped(arr[i][j])
  }

  /** The type check passes exactly when every cell from (r, c) on is there and well typed. */
  lemma {:induction false} TypeFaultFromPass(arr: RawMap, width: nat, r: nat, c: nat)
    requires r <= |arr| && c <= width
    ensures TypeFaultFrom(arr, width, r, c) == Pass <==>
      forall i: nat, j: nat :: r <= i < |arr| && j < width && (r < i || c <= j) ==> TypedAt(arr, i, j)
    ensures TypeFaultFrom(arr, width, r, c) in {Pass, Fail(Runtime(IndexError)), Fail(User(InvalidMap))}
    decreases |arr| - r, width - c
  {
    if r < |arr| {
      if c == width {
        TypeFaultFromPass(arr, width, r + 1, 0);
      } else if TypedAt(arr, r, c) {
        TypeFaultFromPass(arr, width, r, c + 1);
      }
    }
  }

  /** The whole type check passes exactly when the map is well typed over the first `width` columns. */
  lemma TypeCheckPass(arr: RawMap, width: nat)
    ensures TypeFaultFrom(arr, width, 0, 0) == Pass <==> WellTyped(arr, width)
    ensures TypeFaultFrom(arr, width, 0, 0) in {Pass, Fail(Runtime(IndexError)), Fail(User(InvalidMap))}
  {
    TypeFaultFromPass(arr, width, 0, 0);
    if TypeFaultFrom(arr, width, 0, 0) == Pass {
      forall i | 0 <= i < |arr|
        ensures width <= |arr[i]|
      {
        if width > 0 {
          assert TypedAt(arr, i, width - 1);
        }
      }
      forall i, j | 0 <= i < |arr| && 0 <= j < width <= |arr[i]|
        ensures CellTyped(arr[i][j])
      {
        assert TypedAt(arr, i, j);
      }
    } else {
      var i: nat, j: nat :| i < |arr| && j < width && !TypedAt(arr, i, j);
    }
  }

  /**
   * One cell as generateMap builds it: the tag gives the state; a level on a
   * non-terraformable cell, a negative yield or a yield on a non-mining cell is
   * an invalid map. Each team sees its own bases and nothing else.
   */
  function ParseCell(cell: RawCell, r: int, c: int): (res: Result<Tile>)
    requires CellTyped(cell)
    ensures res.Err? ==> res.error == User(InvalidMap)
    ensures res.Ok? <==>
      && cell[0].s in {"T", "I", "M"}
      && (cell[1].i != 0 ==> cell[0].s == "T")
      && cell[2].i >= 0
      && (cell[2].i > 0 ==> cell[0].s == "M")
    ensures res.Ok? ==>
      && res.value.state == (if cell[0].s == "T" then Terraformable else if cell[0].s == "I" then Impassable else Mining)
      && res.value.row == r && res.value.col == c
      && res.value.terraform == cell[1].i && res.value.mining == cell[2].i
      && forall t :: res.value.IsFogged(t) <==> !BaseOf(res.value, t)
  {
    var tag, terraform, mining := cell[0].s, cell[1].i, cell[2].i;
    var state :=
      if tag == "T" then Terraformable
      else if tag == "I" then Impassable
      else if tag == "M" then Mining
      else Illegal;
    if state == Illegal then Err(User(InvalidMap))
    else if terraform != 0 && state != Terraformable then Err(User(InvalidMap))
    else if mining < 0 then Err(User(InvalidMap))
    else if mining > 0 && state != Mining then Err(User(InvalidMap))
    else if terraform > 0 then Ok(Tile(state, r, c, terraform, false, true, mining))
    else if terraform < 0 then Ok(Tile(state, r, c, terraform, true, false, mining))
    else Ok(Tile(state, r, c, terraform, true, true, mining))
  }

  /** Every cell in the first `width` columns is well typed and parses. */
  predicate Parses(arr: RawMap, width: nat) {
    WellTyped(arr, width) &&
    forall i, j :: 0 <= i < |arr| && 0 <= j < width ==> ParseCell(arr[i][j], i, j).Ok?
  }

  /** The first parse failure from (r, c) on, in row-major order. */
  function ParseFaultFrom(arr: RawMap, width: nat, r: nat, c: nat): Outcome
    requires WellTyped(arr, width) && r <= |arr| && c <= width
    decreases |arr| - r, width - c
  {
    if r == |arr| then Pass
    else if c == width then ParseFaultFrom(arr, width, r + 1, 0)
    else if ParseCell(arr[r][c], r, c).Err? then Fail(ParseCell(arr[r][c], r, c).error)
    else ParseFaultFrom(arr, width, r, c + 1)
  }

  /** The parse passes exactly when every cell from (r, c) on parses; otherwise the map is invalid. */
  lemma {:induction false} ParseFaultFromPass(arr: RawMap, width: nat, r: nat, c: nat)
    requires WellTyped(arr, width) && r <= |arr| && c <= width
    ensures ParseFaultFrom(arr, width, r, c) == Pass <==>
      forall i, j :: r <= i < |arr| && 0 <= j < width && (r < i || c <= j) ==> ParseCell(arr[i][j], i, j).Ok?
    ensures ParseFaultFrom(arr, width, r, c) in {Pass, Fail(User(InvalidMap))}
    decreases |arr| - r, width - c
  {
    if r < |arr| {
      if c == width {
        ParseFaultFromPass(arr, width, r + 1, 0);
      } else if ParseCell(arr[r][c], r, c).Ok? {
        ParseFaultFromPass(arr, width, r, c + 1);
      }
    }
  }

  /** A cell that passes the map validator is well typed, parses, and gives a well-formed tile. */
  lemma ValidCellParses(cell: RawCell, r: int, c: int)
    requires ValidateCell(cell) == Pass
    ensures CellTyped(cell)
    ensures ParseCell(cell, r, c).Ok? && Maps.TileOk(ParseCell(cell, r, c).value, r, c)
  {
  }

  /** generateMap's type check, row by row over the first `width` columns. */
  method CheckTypes(arr: RawMap, width: nat) returns (o: Outcome)
    ensures o == TypeFaultFrom(arr, width, 0, 0)
  {
    for row := 0 to |arr|
      invariant TypeFaultFrom(arr, width, 0, 0) == TypeFaultFrom(arr, width, row, 0)
    {
      for col := 0 to width
        invariant TypeFaultFrom(arr, width, 0, 0) == TypeFaultFrom(arr, width, row, col)
      {
        if col >= |arr[row]| {
          return Fail(Runtime(IndexError));
        }
        if !CellTyped(arr[row][col]) {
          return Fail(User(InvalidMap));
        }
      }
    }
    return Pass;
  }

  /** The cells of `g` before (row, col) in row-major order hold the parsed map cells. */
  ghost predicate FilledBefore(arr: RawMap, g: array2<Tile>, row: int, col: int)
    reads g
    requires WellTyped(arr, g.Length1) && g.Length0 == |arr|
  {
    forall i, j {:trigger g[i, j]} :: 0 <= i < g.Length0 && 0 <= j < g.Length1 && (i < row || (i == row && j < col)) ==>
      ParseCell(arr[i][j], i, j) == Ok(g[i, j])
  }

  /** generateMap's parse into a fresh height x width grid, stopping at the first bad cell. */
  method PopulateTiles(arr: RawMap, width: nat) returns (res: Result<array2<Tile>>)
    requires WellTyped(arr, width)
    ensures res.Err? <==> ParseFaultFrom(arr, width, 0, 0).Fail?
    ensures res.Err? ==> res.error == ParseFaultFrom(arr, width, 0, 0).error
    ensures res.Ok? ==> fresh(res.value) && res.value.Length0 == |arr| && res.value.Length1 == width
    ensures res.Ok? ==> FilledBefore(arr, res.value, |arr|, 0)
  {
    var grid := new Tile[|arr|, width]((i, j) => Tile(Impassable, i, j, 0, true, true, 0));
    for row := 0 to |arr|
      invariant ParseFaultFrom(arr, width, 0, 0) == ParseFaultFrom(arr, width, row, 0)
      invariant FilledBefore(arr, grid, row, 0)
    {
      for col := 0 to width
        invariant ParseFaultFrom(arr, width, 0, 0) == ParseFaultFrom(arr, width, row, col)
        invariant FilledBefore(arr, grid, row, col)
      {
        var parsed := ParseCell(arr[row][col], row, col);
        if parsed.Err? {
          return Err(parsed.error);
        }
        grid[row, col] := parsed.value;
      }
    }
    return Ok(grid);
  }

  /**
   * generateMap: the first row's length is the width; an empty list of rows is
   * an index error (the error message reads the first row), an empty first row
   * an invalid map; then the type check over the first `width` columns of every
   * row, the cell-by-cell parse, both in row-major order and stopping at the
   * first fault, and the spread of each team's sight from its bases.
   */
  method GenerateMap(arr: RawMap, radius: int) returns (res: Result<array2<Tile>>)
    ensures |arr| == 0 ==> res == Err(Runtime(IndexError))
    ensures |arr| > 0 && |arr[0]| == 0 ==> res == Err(User(InvalidMap))
    ensures |arr| > 0 && |arr[0]| > 0 && TypeFaultFrom(arr, |arr[0]|, 0, 0).Fail? ==>
      res == Err(TypeFaultFrom(arr, |arr[0]|, 0, 0).error)
    ensures |arr| > 0 && |arr[0]| > 0 && WellTyped(arr, |arr[0]|) && ParseFaultFrom(arr, |arr[0]|, 0, 0).Fail? ==>
      res == Err(ParseFaultFrom(arr, |arr[0]|, 0, 0).error)
    ensures res.Ok? <==> |arr| > 0 && |arr[0]| > 0 && Parses(arr, |arr[0]|)
    ensures res.Ok? ==>
      && fresh(res.value)
      && res.value.Length0 == |arr| && res.value.Length1 == |arr[0]|
      && Generated(arr, res.value, radius)
  {
    if |arr| == 0 {
      return Err(Runtime(IndexError));
    }
    if |arr[0]| == 0 {
      return Err(User(InvalidMap));
    }
    var width := |arr[0]|;
    TypeCheckPass(arr, width);
    var typed := CheckTypes(arr, width);
    if typed.Fail? {
      return Err(typed.error);
    }
    ParseFaultFromPass(arr, width, 0, 0);
    var populated := PopulateTiles(arr, width);
    if populated.Err? {
      return Err(populated.error);
    }
    var grid := populated.value;
    label filled:
    var _ := VisualizeBaseTiles(grid, radius);
    forall bi, bj, i, j, t |
      && 0 <= bi < grid.Length0 && 0 <= bj < grid.Length1 && 0 <= i < grid.Length0 && 0 <= j < grid.Length1
      && BaseOf(ParseCell(arr[bi][bj], bi, bj).value, t) && Near((bi, bj), (i, j)) && radius != 0
      ensures !grid[i, j].IsFogged(t)
    {
      assert ParseCell(arr[bi][bj], bi, bj) == Ok(old@filled(grid[bi, bj]));
    }
    forall bi, bj, i, j, t |
      && 0 <= bi < grid.Length0 && 0 <= bj < grid.Length1 && 0 <= i < grid.Length0 && 0 <= j < grid.Length1
      && BaseOf(ParseCell(arr[bi][bj], bi, bj).value, t) && (radius < 0 || Cheb((bi, bj), (i, j)) <= radius)
      ensures !grid[i, j].IsFogged(t)
    {
      assert ParseCell(arr[bi][bj], bi, bj) == Ok(old@filled(grid[bi, bj]));
    }
    return Ok(grid);
  }

  /**
   * The board generateMap builds from a map that parses: every tile is the
   * parsed cell with only fog cleared; with a non-negative radius a team sees a
   * cell only within `radius` of one of its bases; unless the radius is 0 it
   * sees the 3x3 block around each of its bases; it sees every cell within
   * `radius` of each of its bases, and the whole board when the radius is
   * negative.
   */
  ghost predicate Generated(arr: RawMap, g: array2<Tile>, radius: int)
    reads g
    requires |arr| > 0 && Parses(arr, |arr[0]|) && g.Length0 == |arr| && g.Length1 == |arr[0]|
  {
    && (forall i, j {:trigger g[i, j]} :: 0 <= i < g.Length0 && 0 <= j < g.Length1 ==>
         FogCleared(ParseCell(arr[i][j], i, j).value, g[i, j]))
    && (radius >= 0 ==> forall i, j, t {:trigger g[i, j].IsFogged(t)} ::
         0 <= i < g.Length0 && 0 <= j < g.Length1 && !g[i, j].IsFogged(t) ==>
           exists bi, bj :: 0 <= bi < g.Length0 && 0 <= bj < g.Length1 &&
             BaseOf(ParseCell(arr[bi][bj], bi, bj).value, t) && Cheb((bi, bj), (i, j)) <= radius)
    && (radius != 0 ==> forall bi, bj, i, j, t {:trigger BaseOf(ParseCell(arr[bi][bj], bi, bj).value, t), g[i, j].IsFogged(t)} ::
         && 0 <= bi < g.Length0 && 0 <= bj < g.Length1 && 0 <= i < g.Length0 && 0 <= j < g.Length1
         && BaseOf(ParseCell(arr[bi][bj], bi, bj).value, t) && Near((bi, bj), (i, j))
         ==> !g[i, j].IsFogged(t))
    && (forall bi, bj, i, j, t {:trigger BaseOf(ParseCell(arr[bi][bj], bi, bj).value, t), g[i, j].IsFogged(t)} ::
         && 0 <= bi < g.Length0 && 0 <= bj < g.Length1 && 0 <= i < g.Length0 && 0 <= j < g.Length1
         && BaseOf(ParseCell(arr[bi][bj], bi, bj).value, t) && (radius < 0 || Cheb((bi, bj), (i, j)) <= radius)
         ==> !g[i, j].IsFogged(t))
  }

  /** The reflection kinds the random generator picks from. */
  const REFLECTIONS: set<string> := {"diagonal", "horizontal", "vertical"}

  /**
   * makeReflectTile as written: an environment error for an empty size, a cell
   * off the grid or an unknown kind; otherwise the partner cell, computed with
   * the height and the width exchanged.
   */
  function MakeReflectTile(width: int, height: int, row: int, col: int, kind: string): (r: Result<Pos>)
    ensures r.Err? <==>
      width <= 0 || height <= 0 || !(0 <= row < height) || !(0 <= col < width) || kind !in REFLECTIONS
    ensures r.Err? ==> r.error == Runtime(EnvironmentError)
  {
    if width <= 0 || height <= 0 || !(0 <= row < height) || !(0 <= col < width) then Err(Runtime(EnvironmentError))
    else if kind == "diagonal" then Ok((width - 1 - row, height - 1 - col))
    else if kind == "horizontal" then Ok((row, height - 1 - col))
    else if kind == "vertical" then Ok((width - 1 - row, col))
    else Err(Runtime(EnvironmentError))
  }

  /** On a 1 x 3 grid the diagonal partner of (0, 0) is row 2, which does not exist. */
  lemma ReflectTileLeavesGrid()
    ensures MakeReflectTile(3, 1, 0, 0, "diagonal") == Ok((2, 0))
    ensures !(0 <= MakeReflectTile(3, 1, 0, 0, "diagonal").value.0 < 1)
  {
  }

  /**
   * makeReflectTile as intended: the partner under a half turn (diagonal), a
   * mirror across the vertical axis (horizontal) or across the horizontal axis
   * (vertical); the same error cases.
   */
  function MakeReflectTileIntended(width: int, height: int, row: int, col: int, kind: string): (r: Result<Pos>)
    ensures r.Err? <==>
      width <= 0 || height <= 0 || !(0 <= row < height) || !(0 <= col < width) || kind !in REFLECTIONS
    ensures r.Err? ==> r.error == Runtime(EnvironmentError)
  {
    if width <= 0 || height <= 0 || !(0 <= row < height) || !(0 <= col < width) then Err(Runtime(EnvironmentError))
    else if kind == "diagonal" then Ok((height - 1 - row, width - 1 - col))
    else if kind == "horizontal" then Ok((row, width - 1 - col))
    else if kind == "vertical" then Ok((height - 1 - row, col))
    else Err(Runtime(EnvironmentError))
  }

  /** The symmetry of the validator each generator reflection produces. */
  function SymmetryOf(kind: string): Symmetry
    requires kind in REFLECTIONS
  {
    if kind == "diagonal" then Rot else if kind == "horizontal" then Ver else Hor
  }

  /**
   * The intended partner is the validator's reflection of the same kind, so it
   * lies on the grid and reflecting it again gives back the cell.
   */
  lemma ReflectTileIntendedIsSymmetry(width: int, height: int, row: int, col: int, kind: string)
    requires MakeReflectTileIntended(width, height, row, col, kind).Ok?
    ensures var p := MakeReflectTileIntended(width, height, row, col, kind).value;
      && p == Reflect(SymmetryOf(kind), height, width, row, col)
      && 0 <= p.0 < height && 0 <= p.1 < width
      && MakeReflectTileIntended(width, height, p.0, p.1, kind) == Ok((row, col))
  {
  }

  /** On a square grid, the only size the game generates, the written version is the intended one. */
  lemma ReflectTileSquareAgrees(n: int, row: int, col: int, kind: string)
    ensures MakeReflectTile(n, n, row, col, kind) == MakeReflectTileIntended(n, n, row, col, kind)
  {
  }

  /**
   * Map(path, radius) for a map file: the file is validated (with the intended
   * symmetry report), its cells are built into tiles with the bases' sight
   * spread, and the Map records its initial lists. A file of empty rows passes
   * the validator and is then refused by the tile builder.
   */
  method LoadMap(raw: RawMap, radius: int) returns (res: Result<Maps.Map>)
    ensures ValidateMapIntended(raw).Fail? ==> res == Err(ValidateMapIntended(raw).error)
    ensures ValidateMapIntended(raw) == Pass && |raw[0]| == 0 ==> res == Err(User(InvalidMap))
    ensures ValidateMapIntended(raw) == Pass && |raw[0]| > 0 ==> res.Ok?
    ensures res.Ok? ==>
      && fresh(res.value) && fresh(res.value.tiles)
      && res.value.Valid()
      && res.value.height == |raw| && res.value.width == |raw[0]|
      && Parses(raw, |raw[0]|)
      && Generated(raw, res.value.tiles, radius)
      && res.value.initial == Maps.Prefix(res.value.tiles, |raw|, 0)
  {
    var verdict := ValidateMapIntended(raw);
    if verdict.Fail? {
      return Err(verdict.error);
    }
    ValidateMapIntendedPass(raw);
    var width := |raw[0]|;
    forall i, j | 0 <= i < |raw| && 0 <= j < width
      ensures CellTyped(raw[i][j]) && ParseCell(raw[i][j], i, j).Ok? && Maps.TileOk(ParseCell(raw[i][j], i, j).value, i, j)
    {
      ValidCellParses(raw[i][j], i, j);
    }
    assert WellTyped(raw, width);
    assert Parses(raw, width);
    var built := GenerateMap(raw, radius);
    if built.Err? {
      return Err(built.error);
    }
    var grid := built.value;
    forall i, j | 0 <= i < grid.Length0 && 0 <= j < grid.Length1
      ensures Maps.TileOk(grid[i, j], i, j)
    {
      assert FogCleared(ParseCell(raw[i][j], i, j).value, grid[i, j]);
    }
    var board := new Maps.Map(grid);
    return Ok(board);
  }
}
