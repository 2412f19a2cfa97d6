/**
 * The breadth-first search shared by GameState.optimal_path and
 * GameState.robot_to_base (src/game_state.py:62-146): a FIFO queue of
 * (first direction, position, moves) entries and a visited set to which the
 * start is NOT added, stopping at the first dequeued position that is a goal.
 */
module Search {
  import opened Constants
  import opened Errors
  import opened Grid

  datatype Entry = Entry(dir: Option<Direction>, pos: Pos, moves: nat)

  /** The positions held by a queue. */
  ghost function Positions(queue: seq<Entry>): set<Pos>
  {
    if queue == [] then {} else {queue[0].pos} + Positions(queue[1..])
  }

  lemma {:induction false} PositionsAppend(queue: seq<Entry>, e: Entry)
    ensures Positions(queue + [e]) == Positions(queue) + {e.pos}
  {
    if queue != [] {
      assert (queue + [e])[1..] == queue[1..] + [e];
      PositionsAppend(queue[1..], e);
    }
  }

  lemma {:induction false} PositionsHas(queue: seq<Entry>, v: Pos) returns (i: nat)
    requires v in Positions(queue)
    ensures i < |queue| && queue[i].pos == v
  {
    if queue[0].pos == v {
      i := 0;
    } else {
      i := PositionsHas(queue[1..], v);
      i := i + 1;
    }
  }

  /** What every queued entry promises: it is reachable in its move count, via its first step. */
  ghost predicate EntrySound(walk: set<Pos>, s: Pos, e: Entry)
  {
    && e.pos in Within(walk, s, e.moves)
    && (e.moves == 0 <==> e.dir == None)
    && (e.moves == 0 ==> e.pos == s)
    && (e.moves > 0 ==> Move(s, e.dir.value) in walk && e.pos in Within(walk, Move(s, e.dir.value), e.moves - 1))
  }

  /** Move counts along the queue never decrease and span at most one layer. */
  ghost predicate Layered(queue: seq<Entry>)
  {
    forall i, j :: 0 <= i < j < |queue| ==> queue[i].moves <= queue[j].moves <= queue[i].moves + 1
  }

  lemma LayeredAppend(queue: seq<Entry>, x: Entry, lo: nat)
    requires Layered(queue)
    requires forall y :: y in queue ==> lo <= y.moves <= lo + 1
    requires x.moves == lo + 1
    ensures Layered(queue + [x])
  {
    forall i, j | 0 <= i < j < |queue| + 1
      ensures (queue + [x])[i].moves <= (queue + [x])[j].moves <= (queue + [x])[i].moves + 1
    {
      if j == |queue| {
        assert queue[i] in queue;
      }
    }
  }

  /** A queued position other than the start is not reachable in fewer moves than it carries. */
  ghost predicate EntryExact(walk: set<Pos>, s: Pos, e: Entry)
  {
    e.pos != s && e.moves > 0 ==> e.pos !in Within(walk, s, e.moves - 1)
  }

  /** Every walkable neighbour of an expanded position has been visited. */
  ghost predicate NeighboursVisited(walk: set<Pos>, expanded: set<Pos>, visited: set<Pos>)
  {
    forall p, q {:trigger Adjacent(p, q)} :: p in expanded && q in walk && Adjacent(p, q) ==> q in visited
  }

  /** The loop invariant of the search, once the front entry has been settled. */
  ghost predicate SearchInv(walk: set<Pos>, s: Pos, goal: set<Pos>,
                            queue: seq<Entry>, visited: set<Pos>, expanded: set<Pos>)
  {
    && QueueOk(walk, s, queue)
    && Layered(queue)
    && (queue != [] && queue[0].moves > 0 ==> WithinSubset(walk, s, queue[0].moves - 1, expanded))
    && NeighboursVisited(walk, expanded, visited)
    && visited <= expanded + Positions(queue)
    && expanded <= visited + {s}
    && Positions(queue) <= visited + {s}
    && visited <= walk
    && expanded !! goal
    && (s in expanded || (queue == [Entry(None, s, 0)] && visited == {} && expanded == {}))
  }

  /** A freshly discovered position carries its true distance. */
  lemma ChildIsExact(walk: set<Pos>, s: Pos, expanded: set<Pos>, visited: set<Pos>, d: nat, q: Pos)
    requires d > 0 ==> WithinSubset(walk, s, d - 1, expanded)
    requires NeighboursVisited(walk, expanded, visited)
    requires expanded <= visited + {s}
    requires q !in visited && q != s
    ensures q !in Within(walk, s, d)
  {
    if d > 0 {
      var k: nat := d - 1;
      assert q !in Within(walk, s, k);
      forall p | p in Within(walk, s, k) && q in walk
        ensures !Adjacent(p, q)
      {
      }
    }
  }

  /** A position still queued behind a front of d + 1 moves is not within d moves. */
  lemma QueuedIsFar(walk: set<Pos>, s: Pos, queue: seq<Entry>, d: nat, i: nat)
    requires i < |queue| && queue[0].moves == d + 1
    requires Layered(queue)
    requires EntryExact(walk, s, queue[i])
    requires queue[i].pos != s
    ensures queue[i].pos !in Within(walk, s, d)
  {
    if i > 0 {
      assert queue[0].moves <= queue[i].moves;
    }
    WithinMonotone(walk, s, d, queue[i].moves - 1);
  }

  /** A position first reached at d moves is a walkable neighbour of an expanded one, so it is visited. */
  lemma ReachedIsVisited(walk: set<Pos>, s: Pos, visited: set<Pos>, expanded: set<Pos>, d: nat, q: Pos)
    requires d > 0 && WithinSubset(walk, s, d - 1, expanded)
    requires NeighboursVisited(walk, expanded, visited)
    requires q in Within(walk, s, d) && q !in Within(walk, s, d - 1)
    ensures q in visited
  {
    var p := WithinPredecessor(walk, s, d, q);
    assert p in expanded;
  }

  /** A visited position within d moves is expanded once the front holds d + 1 moves. */
  lemma SettledOne(walk: set<Pos>, s: Pos, queue: seq<Entry>, visited: set<Pos>,
                   expanded: set<Pos>, d: nat, q: Pos)
    requires queue != [] && queue[0].moves == d + 1
    requires Layered(queue)
    requires AllExact(walk, s, queue)
    requires q in visited && visited <= expanded + Positions(queue)
    requires q != s && q in Within(walk, s, d)
    ensures q in expanded
  {
    if q !in expanded {
      var i := PositionsHas(queue, q);
      assert queue[i] in queue;
      QueuedIsFar(walk, s, queue, d, i);
    }
  }

  /** After expanding the front entry, the next front is settled too. */
  lemma FrontSettled(walk: set<Pos>, s: Pos, queue: seq<Entry>, visited: set<Pos>,
                     expanded: set<Pos>, d: nat)
    requires queue != [] && queue[0].moves == d + 1
    requires d > 0 ==> WithinSubset(walk, s, d - 1, expanded)
    requires s in expanded
    requires Layered(queue)
    requires AllExact(walk, s, queue)
    requires NeighboursVisited(walk, expanded, visited)
    requires visited <= expanded + Positions(queue)
    ensures WithinSubset(walk, s, d, expanded)
  {
    if d == 0 {
      assert Within(walk, s, d) == {s};
    } else {
      forall q | q in Within(walk, s, d)
        ensures q in expanded
      {
        if q != s && q !in Within(walk, s, d - 1) {
          ReachedIsVisited(walk, s, visited, expanded, d, q);
          SettledOne(walk, s, queue, visited, expanded, d, q);
        }
      }
    }
  }

  /** The child entry that expanding `e` in direction `d` enqueues. */
  function Child(e: Entry, d: Direction): Entry
  {
    Entry(if e.dir == None then Some(d) else e.dir, Move(e.pos, d), e.moves + 1)
  }

  /** A child entry is reachable in its move count via its first step. */
  lemma ChildSound(walk: set<Pos>, s: Pos, e: Entry, d: Direction)
    requires EntrySound(walk, s, e)
    requires Move(e.pos, d) in walk
    ensures EntrySound(walk, s, Child(e, d))
  {
    var q := Move(e.pos, d);
    MoveIsAdjacent(e.pos, d);
    WithinStep(walk, s, e.moves, e.pos, q);
    if e.moves > 0 {
      WithinStep(walk, Move(s, e.dir.value), e.moves - 1, e.pos, q);
    } else {
      assert q in Within(walk, q, 0);
    }
  }

  /** All entries of a queue are sound. */
  ghost predicate AllSound(walk: set<Pos>, s: Pos, queue: seq<Entry>)
  {
    forall x :: x in queue ==> EntrySound(walk, s, x)
  }

  /** All entries of a queue are exact. */
  ghost predicate AllExact(walk: set<Pos>, s: Pos, queue: seq<Entry>)
  {
    forall x :: x in queue ==> EntryExact(walk, s, x)
  }

  /** All entries of a queue are sound and exact. */
  ghost predicate QueueOk(walk: set<Pos>, s: Pos, queue: seq<Entry>)
  {
    AllSound(walk, s, queue) && AllExact(walk, s, queue)
  }

  /** What expanding `e` needs from the state of the search. */
  ghost predicate ExpandPre(walk: set<Pos>, s: Pos, e: Entry, queue: seq<Entry>,
                            visited: set<Pos>, expanded: set<Pos>)
  {
    && EntrySound(walk, s, e)
    && (e.moves > 0 ==> WithinSubset(walk, s, e.moves - 1, expanded))
    && NeighboursVisited(walk, expanded, visited)
    && expanded <= visited + {s}
    && visited <= walk
    && QueueOk(walk, s, queue)
    && (forall x :: x in queue ==> e.moves <= x.moves <= e.moves + 1)
    && Layered(queue)
    && Positions(queue) <= visited + {s}
  }

  /** The invariant of the inner loop after the first `i` directions. */
  ghost predicate Expanding(walk: set<Pos>, s: Pos, e: Entry, queue: seq<Entry>, visited: set<Pos>,
                            queue': seq<Entry>, visited': set<Pos>, i: int)
  {
    && 0 <= i <= 8
    && visited <= visited' <= walk
    && (forall j :: 0 <= j < i && Move(e.pos, DIRECTIONS[j]) in walk ==> Move(e.pos, DIRECTIONS[j]) in visited')
    && QueueOk(walk, s, queue')
    && (forall x :: x in queue' ==> e.moves <= x.moves <= e.moves + 1)
    && Layered(queue')
    && Positions(queue) <= Positions(queue')
    && visited' - visited <= Positions(queue')
    && Positions(queue') <= visited' + {s}
  }

  /** Enqueueing an unvisited walkable neighbour keeps the inner-loop invariant. */
  lemma ExpandPush(walk: set<Pos>, s: Pos, e: Entry, queue: seq<Entry>, visited: set<Pos>,
                   expanded: set<Pos>, queue': seq<Entry>, visited': set<Pos>, i: nat)
    requires ExpandPre(walk, s, e, queue, visited, expanded)
    requires Expanding(walk, s, e, queue, visited, queue', visited', i)
    requires i < 8
    requires Move(e.pos, DIRECTIONS[i]) in walk && Move(e.pos, DIRECTIONS[i]) !in visited'
    ensures Expanding(walk, s, e, queue, visited, queue' + [Child(e, DIRECTIONS[i])],
                      visited' + {Move(e.pos, DIRECTIONS[i])}, i + 1)
  {
    var d := DIRECTIONS[i];
    var q := Move(e.pos, d);
    var child := Child(e, d);
    ChildSound(walk, s, e, d);
    if q != s {
      ChildIsExact(walk, s, expanded, visited', e.moves, q);
    }
    assert EntryExact(walk, s, child);
    PositionsAppend(queue', child);
    LayeredAppend(queue', child, e.moves);
  }

  /** Skipping a neighbour that is not walkable or already visited keeps the inner-loop invariant. */
  lemma ExpandSkip(walk: set<Pos>, s: Pos, e: Entry, queue: seq<Entry>, visited: set<Pos>,
                   queue': seq<Entry>, visited': set<Pos>, i: nat)
    requires Expanding(walk, s, e, queue, visited, queue', visited', i)
    requires i < 8
    requires Move(e.pos, DIRECTIONS[i]) !in walk || Move(e.pos, DIRECTIONS[i]) in visited'
    ensures Expanding(walk, s, e, queue, visited, queue', visited', i + 1)
  {
  }

  /** Once all eight directions are done, every walkable neighbour of `e` is visited. */
  lemma ExpandDone(walk: set<Pos>, s: Pos, e: Entry, queue: seq<Entry>, visited: set<Pos>,
                   queue': seq<Entry>, visited': set<Pos>)
    requires Expanding(walk, s, e, queue, visited, queue', visited', 8)
    ensures forall q :: q in walk && Adjacent(e.pos, q) ==> q in visited'
  {
    forall q | q in walk && Adjacent(e.pos, q)
      ensures q in visited'
    {
      var d := AdjacentIsMove(e.pos, q);
      var j := DirectionIndex(d);
    }
  }

  /** The inner loop of the search: enqueue every unvisited walkable neighbour of `e`. */
  method ExpandEntry(walk: set<Pos>, s: Pos, e: Entry, queue: seq<Entry>, visited: set<Pos>,
                     ghost expanded: set<Pos>)
    returns (queue': seq<Entry>, visited': set<Pos>)
    requires ExpandPre(walk, s, e, queue, visited, expanded)
    ensures Expanding(walk, s, e, queue, visited, queue', visited', 8)
    ensures forall q :: q in walk && Adjacent(e.pos, q) ==> q in visited'
    ensures visited' == visited ==> queue' == queue
    ensures visited' != visited ==> |walk - visited'| < |walk - visited|
  {
    queue', visited' := queue, visited;
    for i := 0 to 8
      invariant Expanding(walk, s, e, queue, visited, queue', visited', i)
      invariant visited' == visited ==> queue' == queue
      invariant visited' != visited ==> |walk - visited'| < |walk - visited|
    {
      var q := Move(e.pos, DIRECTIONS[i]);
      if q in walk && q !in visited' {
        ExpandPush(walk, s, e, queue, visited, expanded, queue', visited', i);
        assert walk - (visited' + {q}) == (walk - visited') - {q};
        queue' := queue' + [Child(e, DIRECTIONS[i])];
        visited' := visited' + {q};
      } else {
        ExpandSkip(walk, s, e, queue, visited, queue', visited', i);
      }
    }
    ExpandDone(walk, s, e, queue, visited, queue', visited');
  }

  /** The search state before the first iteration. */
  lemma SearchStart(walk: set<Pos>, s: Pos, goal: set<Pos>)
    ensures SearchInv(walk, s, goal, [Entry(None, s, 0)], {}, {})
  {
    var queue := [Entry(None, s, 0)];
    assert Positions(queue[1..]) == {};
    assert s in Within(walk, s, 0);
  }

  /** Popping the front entry of an invariant state gives what its expansion needs. */
  lemma PopOk(walk: set<Pos>, s: Pos, goal: set<Pos>, queue: seq<Entry>, visited: set<Pos>,
              expanded: set<Pos>)
    requires SearchInv(walk, s, goal, queue, visited, expanded)
    requires queue != []
    ensures ExpandPre(walk, s, queue[0], queue[1..], visited, expanded)
  {
    var e := queue[0];
    assert e in queue;
    forall x | x in queue[1..]
      ensures e.moves <= x.moves <= e.moves + 1
    {
      var j :| 0 <= j < |queue[1..]| && queue[1..][j] == x;
      assert queue[j + 1] == x;
    }
    forall i, j | 0 <= i < j < |queue[1..]|
      ensures queue[1..][i].moves <= queue[1..][j].moves <= queue[1..][i].moves + 1
    {
      assert queue[1..][i] == queue[i + 1] && queue[1..][j] == queue[j + 1];
    }
  }

  /** A dequeued goal entry is a shortest path to the goal set. */
  lemma FoundGoal(walk: set<Pos>, s: Pos, goal: set<Pos>, queue: seq<Entry>, visited: set<Pos>,
                  expanded: set<Pos>)
    requires SearchInv(walk, s, goal, queue, visited, expanded)
    requires queue != [] && queue[0].pos in goal
    ensures queue[0].moves == 0 ==> queue[0].dir == None && s in goal
    ensures queue[0].moves > 0 ==> queue[0].dir.Some? && Move(s, queue[0].dir.value) in walk
    ensures queue[0].moves > 0 ==>
      exists t :: t in goal && t in Within(walk, Move(s, queue[0].dir.value), queue[0].moves - 1)
    ensures queue[0].moves > 0 ==> Within(walk, s, queue[0].moves - 1) !! goal
  {
    var e := queue[0];
    assert e in queue;
    assert EntrySound(walk, s, e);
  }

  /** The bookkeeping sets after expanding the front entry `queue[0]`. */
  lemma AfterExpandSets(walk: set<Pos>, s: Pos, goal: set<Pos>, queue: seq<Entry>, visited: set<Pos>,
                        expanded: set<Pos>, queue': seq<Entry>, visited': set<Pos>)
    requires queue != [] && queue[0].pos !in goal
    requires NeighboursVisited(walk, expanded, visited)
    requires visited <= expanded + Positions(queue)
    requires expanded <= visited + {s}
    requires Positions(queue) <= visited + {s}
    requires visited <= walk && expanded !! goal
    requires s in expanded || (queue == [Entry(None, s, 0)] && visited == {} && expanded == {})
    requires visited <= visited'
    requires Positions(queue[1..]) <= Positions(queue')
    requires visited' - visited <= Positions(queue')
    requires forall q :: q in walk && Adjacent(queue[0].pos, q) ==> q in visited'
    ensures NeighboursVisited(walk, expanded + {queue[0].pos}, visited')
    ensures visited' <= expanded + {queue[0].pos} + Positions(queue')
    ensures expanded + {queue[0].pos} <= visited' + {s}
    ensures expanded + {queue[0].pos} !! goal
    ensures s in expanded + {queue[0].pos}
  {
    var e := queue[0];
    assert Positions(queue) == {e.pos} + Positions(queue[1..]);
    if s !in expanded {
      assert e.pos == s;
    }
  }

  /** The new front entry is settled after expanding the old one. */
  lemma AfterExpandFront(walk: set<Pos>, s: Pos, e: Entry, queue': seq<Entry>, visited': set<Pos>,
                         expanded: set<Pos>)
    requires e.moves > 0 ==> WithinSubset(walk, s, e.moves - 1, expanded)
    requires e.moves == 0 ==> e.pos == s
    requires AllExact(walk, s, queue')
    requires Layered(queue')
    requires forall x :: x in queue' ==> e.moves <= x.moves <= e.moves + 1
    requires NeighboursVisited(walk, expanded + {e.pos}, visited')
    requires visited' <= expanded + {e.pos} + Positions(queue')
    requires s in expanded + {e.pos}
    ensures queue' != [] && queue'[0].moves > 0 ==> WithinSubset(walk, s, queue'[0].moves - 1, expanded + {e.pos})
  {
    if queue' != [] && queue'[0].moves > 0 {
      assert queue'[0] in queue';
      if queue'[0].moves == e.moves + 1 {
        FrontSettled(walk, s, queue', visited', expanded + {e.pos}, e.moves);
      }
    }
  }

  /** Expanding the front entry re-establishes the invariant with that entry's position expanded. */
  lemma AfterExpand(walk: set<Pos>, s: Pos, goal: set<Pos>, queue: seq<Entry>, visited: set<Pos>,
                    expanded: set<Pos>, queue': seq<Entry>, visited': set<Pos>)
    requires SearchInv(walk, s, goal, queue, visited, expanded)
    requires queue != [] && queue[0].pos !in goal
    requires ExpandPre(walk, s, queue[0], queue[1..], visited, expanded)
    requires Expanding(walk, s, queue[0], queue[1..], visited, queue', visited', 8)
    requires forall q :: q in walk && Adjacent(queue[0].pos, q) ==> q in visited'
    ensures SearchInv(walk, s, goal, queue', visited', expanded + {queue[0].pos})
  {
    AfterExpandSets(walk, s, goal, queue, visited, expanded, queue', visited');
    AfterExpandFront(walk, s, queue[0], queue', visited', expanded);
  }

  /** When the queue runs out, nothing reachable is a goal. */
  lemma Exhausted(walk: set<Pos>, s: Pos, goal: set<Pos>, visited: set<Pos>, expanded: set<Pos>)
    requires SearchInv(walk, s, goal, [], visited, expanded)
    ensures forall k: nat :: Within(walk, s, k) !! goal
  {
    forall p, q | p in expanded && q in walk && Adjacent(p, q)
      ensures q in expanded
    {
    }
    forall k: nat
      ensures Within(walk, s, k) !! goal
    {
      WithinClosed(walk, s, expanded, k);
    }
  }

  /**
   * What a search answer (dir, n) states about the walkable cells, the start and
   * the goals: -1 when no goal is reachable at all; 0 exactly when the start is
   * a goal; otherwise n moves reach a goal through the first step `dir`, and no
   * goal lies within n - 1 moves.
   */
  ghost predicate Answers(walk: set<Pos>, s: Pos, goal: set<Pos>, dir: Option<Direction>, n: int)
  {
    && n >= -1
    && (n == -1 ==> dir == None && forall k: nat :: Within(walk, s, k) !! goal)
    && (n == 0 <==> s in goal)
    && (n == 0 ==> dir == None)
    && (n > 0 ==>
         && dir.Some? && Move(s, dir.value) in walk
         && (exists t :: t in goal && t in Within(walk, Move(s, dir.value), n - 1))
         && Within(walk, s, n - 1) !! goal)
  }

  /** The search's guarantees amount to an answer: in particular a start that is a goal gives 0. */
  lemma ShortestPathAnswers(walk: set<Pos>, s: Pos, goal: set<Pos>, dir: Option<Direction>, n: int)
    requires n >= -1
    requires n == -1 ==> dir == None && forall k: nat :: Within(walk, s, k) !! goal
    requires n == 0 ==> dir == None && s in goal
    requires n > 0 ==> dir.Some? && Move(s, dir.value) in walk
    requires n > 0 ==> exists t :: t in goal && t in Within(walk, Move(s, dir.value), n - 1)
    requires n > 0 ==> Within(walk, s, n - 1) !! goal
    ensures Answers(walk, s, goal, dir, n)
  {
    assert s in Within(walk, s, 0);
    if n > 0 {
      WithinMonotone(walk, s, 0, n - 1);
    }
  }

  /** A single goal that is neither walkable nor the start is never reached. */
  lemma UnwalkableGoal(walk: set<Pos>, s: Pos, t: Pos, dir: Option<Direction>, n: int)
    requires Answers(walk, s, {t}, dir, n)
    requires t !in walk && t != s
    ensures dir == None && n == -1
  {
    if n > 0 {
      var t' :| t' in {t} && t' in Within(walk, Move(s, dir.value), n - 1);
      WithinWalkable(walk, Move(s, dir.value), n - 1);
    }
  }

  /**
   * Breadth-first search from `s` over the walkable positions `walk`. Returns
   * (None, -1) when no goal is reachable; otherwise the number of moves to the
   * nearest goal and the first move of such a shortest path ((None, 0) when `s`
   * is itself a goal).
   */
  method ShortestPath(walk: set<Pos>, s: Pos, goal: set<Pos>) returns (dir: Option<Direction>, n: int)
    ensures n >= -1
    ensures n == -1 ==> dir == None && forall k: nat :: Within(walk, s, k) !! goal
    ensures n == 0 ==> dir == None && s in goal
    ensures n > 0 ==> dir.Some? && Move(s, dir.value) in walk
    ensures n > 0 ==> exists t :: t in goal && t in Within(walk, Move(s, dir.value), n - 1)
    ensures n > 0 ==> Within(walk, s, n - 1) !! goal
  {
    var visited: set<Pos> := {};
    var queue: seq<Entry> := [Entry(None, s, 0)];
    ghost var expanded: set<Pos> := {};
    SearchStart(walk, s, goal);
    while queue != []
      invariant SearchInv(walk, s, goal, queue, visited, expanded)
      decreases |walk - visited|, |queue|
    {
      var e := queue[0];
      if e.pos in goal {
        FoundGoal(walk, s, goal, queue, visited, expanded);
        return e.dir, e.moves;
      }
      PopOk(walk, s, goal, queue, visited, expanded);
      var queue', visited' := ExpandEntry(walk, s, e, queue[1..], visited, expanded);
      AfterExpand(walk, s, goal, queue, visited, expanded, queue', visited');
      queue, visited, expanded := queue', visited', expanded + {e.pos};
    }
    Exhausted(walk, s, goal, visited, expanded);
    return None, -1;
  }
}
