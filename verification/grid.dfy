/**
 * Grid geometry shared by the map, the robots and the searches: positions, king
 * moves, and the set of positions reachable within k moves over a set of
 * walkable positions (the notion of distance the breadth-first searches compute).
 */
module Grid {
  import opened Constants

  /** (row, col) */
  type Pos = (int, int)

  /** The position one step from `p` in direction `d`. */
  function Move(p: Pos, d: Direction): Pos {
    (p.0 + d.DRow(), p.1 + d.DCol())
  }

  /** `q` is one king move away from `p`. */
  predicate Adjacent(p: Pos, q: Pos) {
    p != q && -1 <= q.0 - p.0 <= 1 && -1 <= q.1 - p.1 <= 1
  }

  /** `q` lies in the 3x3 block centred on `p` (`p` itself included). */
  predicate Near(p: Pos, q: Pos) {
    -1 <= q.0 - p.0 <= 1 && -1 <= q.1 - p.1 <= 1
  }

  /** The number of king moves from `p` to `q` on an open board (Chebyshev distance). */
  function Cheb(p: Pos, q: Pos): nat {
    var dr := if q.0 >= p.0 then q.0 - p.0 else p.0 - q.0;
    var dc := if q.1 >= p.1 then q.1 - p.1 else p.1 - q.1;
    if dr >= dc then dr else dc
  }

  lemma MoveIsAdjacent(p: Pos, d: Direction)
    ensures Adjacent(p, Move(p, d))
  {
  }

  /** Every king move is one of the eight directions. */
  lemma AdjacentIsMove(p: Pos, q: Pos) returns (d: Direction)
    requires Adjacent(p, q)
    ensures Move(p, d) == q
  {
    DirectionsAreKingMoves();
    var dr, dc := q.0 - p.0, q.1 - p.1;
    d :| d.DRow() == dr && d.DCol() == dc;
  }

  /**
   * The positions reachable from `s` in at most `k` king moves, each move landing
   * on a position of `walk` (`s` itself need not be walkable).
   */
  ghost function Within(walk: set<Pos>, s: Pos, k: nat): set<Pos>
    decreases k
  {
    if k == 0 then {s}
    else Within(walk, s, k - 1) + set q | q in walk && exists p {:trigger Adjacent(p, q)} :: p in Within(walk, s, k - 1) && Adjacent(p, q)
  }

  /**
   * Everything within `k` moves of `s` lies in `S` (the subset relation, stated so
   * that it is only ever applied to positions already known to be within reach).
   */
  ghost predicate WithinSubset(walk: set<Pos>, s: Pos, k: nat, S: set<Pos>)
  {
    forall q {:trigger q in Within(walk, s, k)} :: q in Within(walk, s, k) ==> q in S
  }

  lemma {:induction false} WithinMonotone(walk: set<Pos>, s: Pos, j: nat, k: nat)
    requires j <= k
    ensures Within(walk, s, j) <= Within(walk, s, k)
    decreases k - j
  {
    if j < k {
      WithinMonotone(walk, s, j, k - 1);
    }
  }

  /** One more walkable step extends a path by one. */
  lemma WithinStep(walk: set<Pos>, s: Pos, k: nat, p: Pos, q: Pos)
    requires p in Within(walk, s, k) && q in walk && Adjacent(p, q)
    ensures q in Within(walk, s, k + 1)
  {
  }

  /** A position first reached at k > 0 has a walkable predecessor reached at k - 1. */
  lemma WithinPredecessor(walk: set<Pos>, s: Pos, k: nat, q: Pos) returns (p: Pos)
    requires k > 0 && q in Within(walk, s, k) && q !in Within(walk, s, k - 1)
    ensures p in Within(walk, s, k - 1) && q in walk && Adjacent(p, q)
  {
    p :| p in Within(walk, s, k - 1) && Adjacent(p, q);
  }

  /** Only the start and walkable positions are ever reached. */
  lemma {:induction false} WithinWalkable(walk: set<Pos>, s: Pos, k: nat)
    ensures Within(walk, s, k) <= walk + {s}
  {
    if k > 0 {
      WithinWalkable(walk, s, k - 1);
    }
  }

  /** A path from a walkable neighbour `a` of `s` is a path from `s` one move longer. */
  lemma {:induction false} WithinFromNeighbour(walk: set<Pos>, s: Pos, a: Pos, k: nat)
    requires a in walk && Adjacent(s, a)
    ensures Within(walk, a, k) <= Within(walk, s, k + 1)
  {
    if k == 0 {
      WithinStep(walk, s, 0, s, a);
    } else {
      WithinFromNeighbour(walk, s, a, k - 1);
      forall q | q in Within(walk, a, k)
        ensures q in Within(walk, s, k + 1)
      {
        if q in Within(walk, a, k - 1) {
          WithinMonotone(walk, s, k, k + 1);
        } else {
          var p := WithinPredecessor(walk, a, k, q);
          WithinStep(walk, s, k, p, q);
        }
      }
    }
  }

  /** A set that holds `s` and is closed under walkable moves holds everything reachable. */
  lemma {:induction false} WithinClosed(walk: set<Pos>, s: Pos, closed: set<Pos>, k: nat)
    requires s in closed
    requires forall p, q :: p in closed && q in walk && Adjacent(p, q) ==> q in closed
    ensures Within(walk, s, k) <= closed
  {
    if k > 0 {
      WithinClosed(walk, s, closed, k - 1);
    }
  }

  /** Over a set holding the whole 3x3 block, one move reaches exactly that block. */
  lemma WithinOneIsBlock(walk: set<Pos>, s: Pos, q: Pos)
    ensures q in Within(walk, s, 1) <==> q == s || (q in walk && Adjacent(s, q))
  {
    assert Within(walk, s, 0) == {s};
  }
}
