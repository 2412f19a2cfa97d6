/**
 * The map-file validator (src/map_validate.py): the three reflections a fair
 * map may have, the shape checks, the symmetry report and the per-cell field
 * checks run on a map file before it is loaded.
 */
module MapValidate {
  import opened Constants
  import opened Errors

  /**
   * A JSON value read from a map file: a string, an integer, or any other value
   * (null, a list, an object), told apart by `id`: two such values are equal
   * exactly when their ids are. Booleans and non-integer numbers, which Python
   * compares equal to integers, are not represented.
   */
  datatype RawValue = Str(s: string) | Int(i: int) | Other(id: int)

  /** A map cell as read: nominally [tag, terraform, mining]. */
  type RawCell = seq<RawValue>

  /** A map file as read: a list of rows of cells. */
  type RawMap = seq<seq<RawCell>>

  /** The three reflections, in the order the validator tries them. */
  datatype Symmetry = Rot | Hor | Ver

  /** Where a reflection of a height x width map sends (r, c). */
  function Reflect(sym: Symmetry, height: int, width: int, r: int, c: int): (p: (int, int))
    ensures 0 <= r < height && 0 <= c < width ==> 0 <= p.0 < height && 0 <= p.1 < width
    ensures sym == Hor ==> p.1 == c
    ensures sym == Ver ==> p.0 == r
  {
    match sym
    case Rot => (height - r - 1, width - c - 1)
    case Hor => (height - r - 1, c)
    case Ver => (r, width - c - 1)
  }

  /** Each reflection undoes itself. */
  lemma ReflectInvolution(sym: Symmetry, height: int, width: int, r: int, c: int)
    ensures var p := Reflect(sym, height, width, r, c);
      Reflect(sym, height, width, p.0, p.1) == (r, c)
  {
  }

  /** A non-empty list of rows, all as long as the first. */
  predicate Rectangular(m: RawMap) {
    |m| > 0 && forall r :: 0 <= r < |m| ==> |m[r]| == |m[0]|
  }

  /** A cell that differs from its mirror image: (row, col, mirror row, mirror col, cell, mirror cell). */
  datatype Mismatch = Mismatch(row: int, col: int, srow: int, scol: int, cur: RawCell, sym: RawCell)

  /** The mismatches among the first `n` cells of row `r`, left to right. */
  function RowMismatches(m: RawMap, sym: Symmetry, r: int, n: int): seq<Mismatch>
    requires Rectangular(m) && 0 <= r < |m| && 0 <= n <= |m[0]|
  {
    if n == 0 then []
    else
      var p := Reflect(sym, |m|, |m[0]|, r, n - 1);
      RowMismatches(m, sym, r, n - 1) +
        if m[r][n - 1] != m[p.0][p.1] then [Mismatch(r, n - 1, p.0, p.1, m[r][n - 1], m[p.0][p.1])] else []
  }

  /** The mismatches among the first `k` rows, in row-major order (the list `bads`). */
  function Mismatches(m: RawMap, sym: Symmetry, k: int): seq<Mismatch>
    requires Rectangular(m) && 0 <= k <= |m|
  {
    if k == 0 then [] else Mismatches(m, sym, k - 1) + RowMismatches(m, sym, k - 1, |m[0]|)
  }

  /** Cell (r, c) equals its mirror image. */
  ghost predicate Mirrored(m: RawMap, sym: Symmetry, r: int, c: int)
    requires Rectangular(m) && 0 <= r < |m| && 0 <= c < |m[0]|
  {
    var p := Reflect(sym, |m|, |m[0]|, r, c);
    m[r][c] == m[p.0][p.1]
  }

  /** Every cell of the first `k` rows, and of the first `n` of row `k`, equals its mirror image. */
  ghost predicate SymmetricUpTo(m: RawMap, sym: Symmetry, k: int, n: int)
    requires Rectangular(m)
  {
    forall r, c :: 0 <= r < |m| && 0 <= c < |m[0]| && (r < k || (r == k && c < n)) ==> Mirrored(m, sym, r, c)
  }

  /** Every cell equals its mirror image. */
  ghost predicate Symmetric(m: RawMap, sym: Symmetry)
    requires Rectangular(m)
  {
    SymmetricUpTo(m, sym, |m|, 0)
  }

  /** Symmetry up to (r, n) is symmetry up to (r, n - 1) plus cell (r, n - 1). */
  lemma SymmetricStep(m: RawMap, sym: Symmetry, r: int, n: int)
    requires Rectangular(m) && 0 <= r < |m| && 0 < n <= |m[0]|
    ensures SymmetricUpTo(m, sym, r, n) <==> SymmetricUpTo(m, sym, r, n - 1) && Mirrored(m, sym, r, n - 1)
  {
  }

  /** The cells of row `r` before column `n` equal their mirror images, counted one by one. */
  ghost predicate RowMirrored(m: RawMap, sym: Symmetry, r: int, n: int)
    requires Rectangular(m) && 0 <= r < |m| && 0 <= n <= |m[0]|
  {
    n == 0 || (RowMirrored(m, sym, r, n - 1) && Mirrored(m, sym, r, n - 1))
  }

  /** The cells of the first `k` rows equal their mirror images, counted row by row. */
  ghost predicate RowsMirrored(m: RawMap, sym: Symmetry, k: int)
    requires Rectangular(m) && 0 <= k <= |m|
  {
    k == 0 || (RowsMirrored(m, sym, k - 1) && RowMirrored(m, sym, k - 1, |m[0]|))
  }

  /** A row's mismatch list is empty exactly when its cells so far are mirrored. */
  lemma {:induction false} RowMismatchesEmpty(m: RawMap, sym: Symmetry, r: int, n: int)
    requires Rectangular(m) && 0 <= r < |m| && 0 <= n <= |m[0]|
    ensures |RowMismatches(m, sym, r, n)| == 0 <==> RowMirrored(m, sym, r, n)
  {
    if n > 0 {
      RowMismatchesEmpty(m, sym, r, n - 1);
      assert |RowMismatches(m, sym, r, n)| ==
        |RowMismatches(m, sym, r, n - 1)| + if Mirrored(m, sym, r, n - 1) then 0 else 1;
    }
  }

  /** The mismatch list of the first `k` rows is empty exactly when those rows are mirrored. */
  lemma {:induction false} RowsMismatchesEmpty(m: RawMap, sym: Symmetry, k: int)
    requires Rectangular(m) && 0 <= k <= |m|
    ensures |Mismatches(m, sym, k)| == 0 <==> RowsMirrored(m, sym, k)
  {
    if k > 0 {
      RowsMismatchesEmpty(m, sym, k - 1);
      RowMismatchesEmpty(m, sym, k - 1, |m[0]|);
      assert |Mismatches(m, sym, k)| == |Mismatches(m, sym, k - 1)| + |RowMismatches(m, sym, k - 1, |m[0]|)|;
    }
  }

  /** Counting a row's cells one by one agrees with the quantified statement. */
  lemma {:induction false} RowMirroredSymmetric(m: RawMap, sym: Symmetry, r: int, n: int)
    requires Rectangular(m) && 0 <= r < |m| && 0 <= n <= |m[0]|
    ensures SymmetricUpTo(m, sym, r, 0) ==> (RowMirrored(m, sym, r, n) <==> SymmetricUpTo(m, sym, r, n))
  {
    if n > 0 {
      RowMirroredSymmetric(m, sym, r, n - 1);
      SymmetricStep(m, sym, r, n);
    }
  }

  /** The end of row k - 1 is the start of row k; symmetry up to a point holds up to any earlier one. */
  lemma SymmetricRowEnd(m: RawMap, sym: Symmetry, k: int)
    requires Rectangular(m) && 0 < k <= |m|
    ensures SymmetricUpTo(m, sym, k - 1, |m[0]|) <==> SymmetricUpTo(m, sym, k, 0)
    ensures SymmetricUpTo(m, sym, k, 0) ==> SymmetricUpTo(m, sym, k - 1, 0)
  {
  }

  /** Counting rows one by one agrees with the quantified statement. */
  lemma {:induction false} RowsMirroredSymmetric(m: RawMap, sym: Symmetry, k: int)
    requires Rectangular(m) && 0 <= k <= |m|
    ensures RowsMirrored(m, sym, k) <==> SymmetricUpTo(m, sym, k, 0)
  {
    if k > 0 {
      RowsMirroredSymmetric(m, sym, k - 1);
      RowMirroredSymmetric(m, sym, k - 1, |m[0]|);
      SymmetricRowEnd(m, sym, k);
    }
  }

  /** The mismatch list is empty exactly when the rows so far are symmetric. */
  lemma MismatchesEmpty(m: RawMap, sym: Symmetry, k: int)
    requires Rectangular(m) && 0 <= k <= |m|
    ensures Mismatches(m, sym, k) == [] <==> SymmetricUpTo(m, sym, k, 0)
  {
    RowsMismatchesEmpty(m, sym, k);
    RowsMirroredSymmetric(m, sym, k);
  }

  /** `has_sym` as written: the last reflection that has at least one mismatch. */
  function HasSym(m: RawMap): Option<Symmetry>
    requires Rectangular(m)
  {
    if Mismatches(m, Ver, |m|) != [] then Some(Ver)
    else if Mismatches(m, Hor, |m|) != [] then Some(Hor)
    else if Mismatches(m, Rot, |m|) != [] then Some(Rot)
    else None
  }

  /** HasSym names a reflection the map does NOT have, and the map has every later one. */
  lemma HasSymNamesAsymmetry(m: RawMap)
    requires Rectangular(m)
    ensures HasSym(m).Some? ==> !Symmetric(m, HasSym(m).value)
    ensures HasSym(m) == Some(Rot) ==> Symmetric(m, Hor) && Symmetric(m, Ver)
    ensures HasSym(m) == Some(Hor) ==> Symmetric(m, Ver)
    ensures HasSym(m) == None <==> Symmetric(m, Rot) && Symmetric(m, Hor) && Symmetric(m, Ver)
  {
    MismatchesEmpty(m, Rot, |m|);
    MismatchesEmpty(m, Hor, |m|);
    MismatchesEmpty(m, Ver, |m|);
  }

  /** The intended `has_sym`: the last reflection with no mismatch. */
  function HasSymIntended(m: RawMap): Option<Symmetry>
    requires Rectangular(m)
  {
    if Mismatches(m, Ver, |m|) == [] then Some(Ver)
    else if Mismatches(m, Hor, |m|) == [] then Some(Hor)
    else if Mismatches(m, Rot, |m|) == [] then Some(Rot)
    else None
  }

  /** The intended HasSym names a reflection the map has, and it has none of the later ones. */
  lemma HasSymIntendedNamesSymmetry(m: RawMap)
    requires Rectangular(m)
    ensures HasSymIntended(m).Some? ==> Symmetric(m, HasSymIntended(m).value)
    ensures HasSymIntended(m) == Some(Rot) ==> !Symmetric(m, Hor) && !Symmetric(m, Ver)
    ensures HasSymIntended(m) == Some(Hor) ==> !Symmetric(m, Ver)
    ensures HasSymIntended(m) == None <==> !Symmetric(m, Rot) && !Symmetric(m, Hor) && !Symmetric(m, Ver)
  {
    MismatchesEmpty(m, Rot, |m|);
    MismatchesEmpty(m, Hor, |m|);
    MismatchesEmpty(m, Ver, |m|);
  }

  /**
   * The per-cell check: unpacking fails unless the cell has three values; an
   * impassable cell has no level and no yield, a terraformable cell no yield and
   * a level of -5, 0 or 5, a mining cell no level and a yield in
   * [MINING_MIN, MINING_MAX] (ordering a non-integer yield is a type error);
   * any other tag fails.
   */
  function ValidateCell(cell: RawCell): (o: Outcome)
    ensures o == Pass ==> |cell| == 3 && cell[0].Str? && cell[1].Int? && cell[2].Int?
    ensures o == Pass ==> cell[0].s in {"I", "T", "M"}
    ensures o == Pass && cell[0].s == "I" ==> cell[1].i == 0 && cell[2].i == 0
    ensures o == Pass && cell[0].s == "T" ==> cell[2].i == 0 && cell[1].i in {-5, 0, 5}
    ensures o == Pass && cell[0].s == "M" ==> cell[1].i == 0 && MINING_MIN <= cell[2].i <= MINING_MAX
    ensures |cell| != 3 <==> o == Fail(Runtime(ValueError))
  {
    if |cell| != 3 then Fail(Runtime(ValueError))
    else
      var ttype, terr, mine := cell[0], cell[1], cell[2];
      if ttype == Str("I") then
        if terr == Int(0) && mine == Int(0) then Pass else Fail(Runtime(AssertionError))
      else if ttype == Str("T") then
        if mine == Int(0) && terr in [Int(-5), Int(0), Int(5)] then Pass else Fail(Runtime(AssertionError))
      else if ttype == Str("M") then
        if terr != Int(0) then Fail(Runtime(AssertionError))
        else if !mine.Int? then Fail(Runtime(TypeError))
        else if MINING_MIN <= mine.i <= MINING_MAX then Pass
        else Fail(Runtime(AssertionError))
      else Fail(Runtime(AssertionError))
  }

  /** The first failing cell check from (r, c) on, in row-major order; Pass when none fails. */
  function CellFaultFrom(m: RawMap, r: int, c: int): Outcome
    requires Rectangular(m) && 0 <= r <= |m| && 0 <= c <= |m[0]|
    decreases |m| - r, |m[0]| - c
  {
    if r == |m| then Pass
    else if c == |m[0]| then CellFaultFrom(m, r + 1, 0)
    else if ValidateCell(m[r][c]).Fail? then ValidateCell(m[r][c])
    else CellFaultFrom(m, r, c + 1)
  }

  /** The cell scan passes exactly when every cell from (r, c) on passes. */
  lemma {:induction false} CellFaultFromPass(m: RawMap, r: int, c: int)
    requires Rectangular(m) && 0 <= r <= |m| && 0 <= c <= |m[0]|
    ensures CellFaultFrom(m, r, c) == Pass <==>
      forall i, j :: 0 <= i < |m| && 0 <= j < |m[0]| && (r < i || (r == i && c <= j)) ==> ValidateCell(m[i][j]) == Pass
    ensures CellFaultFrom(m, r, c).Fail? ==>
      exists i, j :: 0 <= i < |m| && 0 <= j < |m[0]| && CellFaultFrom(m, r, c) == ValidateCell(m[i][j])
    decreases |m| - r, |m[0]| - c
  {
    if r < |m| {
      if c == |m[0]| {
        CellFaultFromPass(m, r + 1, 0);
      } else if ValidateCell(m[r][c]).Pass? {
        CellFaultFromPass(m, r, c + 1);
      }
    }
  }

  /** The index of the first row whose length differs from row 0's, or |m| when there is none. */
  function FirstRaggedRow(m: seq<seq<RawCell>>, r: nat): (k: nat)
    requires |m| > 0 && r <= |m|
    ensures r <= k <= |m|
    ensures forall i :: r <= i < k ==> |m[i]| == |m[0]|
    ensures k < |m| ==> |m[k]| != |m[0]|
    decreases |m| - r
  {
    if r == |m| then r
    else if |m[r]| != |m[0]| then r
    else FirstRaggedRow(m, r + 1)
  }

  /**
   * validate_map as written: the list must be non-empty and rectangular; the
   * symmetry report then indexes the first mismatch of each reflection when no
   * reflection has a mismatch, which fails on a map symmetric under all three;
   * then every cell is checked in row-major order.
   */
  function ValidateMap(m: RawMap): (o: Outcome)
    ensures |m| == 0 ==> o == Fail(Runtime(AssertionError))
    ensures |m| > 0 && !Rectangular(m) ==> o == Fail(Runtime(AssertionError))
    ensures Rectangular(m) && HasSym(m).None? ==> o == Fail(Runtime(IndexError))
    ensures Rectangular(m) && HasSym(m).Some? ==> o == CellFaultFrom(m, 0, 0)
  {
    if |m| == 0 then Fail(Runtime(AssertionError))
    else if FirstRaggedRow(m, 0) < |m| then Fail(Runtime(AssertionError))
    else if HasSym(m).None? then Fail(Runtime(IndexError))
    else CellFaultFrom(m, 0, 0)
  }

  /** validate_map with the intended symmetry report, which never fails. */
  function ValidateMapIntended(m: RawMap): (o: Outcome)
    ensures |m| == 0 ==> o == Fail(Runtime(AssertionError))
    ensures |m| > 0 && !Rectangular(m) ==> o == Fail(Runtime(AssertionError))
    ensures Rectangular(m) ==> o == CellFaultFrom(m, 0, 0)
  {
    if |m| == 0 then Fail(Runtime(AssertionError))
    else if FirstRaggedRow(m, 0) < |m| then Fail(Runtime(AssertionError))
    else
      // The report's `bads[0]` is only reached when no reflection holds, so
      // every mismatch list is then non-empty.
      CellFaultFrom(m, 0, 0)
  }

  /** A map passes exactly when it is rectangular and every cell passes its check. */
  lemma ValidateMapIntendedPass(m: RawMap)
    ensures ValidateMapIntended(m) == Pass <==>
      Rectangular(m) && forall i, j :: 0 <= i < |m| && 0 <= j < |m[0]| ==> ValidateCell(m[i][j]) == Pass
  {
    if Rectangular(m) {
      CellFaultFromPass(m, 0, 0);
    }
  }

  /** The symmetry report never decides the outcome of the intended validator. */
  lemma ValidateMapAgrees(m: RawMap)
    ensures Rectangular(m) && HasSym(m).Some? ==> ValidateMap(m) == ValidateMapIntended(m)
    ensures !Rectangular(m) ==> ValidateMap(m) == ValidateMapIntended(m)
  {
  }

  /** A one-cell map is its own mirror image under every reflection. */
  const ONE_CELL_MAP: RawMap := [[[Str("T"), Int(0), Int(0)]]]

  /** As written, the one-cell map fails the validator with an index error; as intended it passes. */
  lemma SymmetricMapCrashes()
    ensures ValidateMap(ONE_CELL_MAP) == Fail(Runtime(IndexError))
    ensures ValidateMapIntended(ONE_CELL_MAP) == Pass
  {
    var m := ONE_CELL_MAP;
    assert Rectangular(m);
    assert Mismatches(m, Rot, 1) == [] by {
      assert RowMismatches(m, Rot, 0, 1) == [];
    }
    assert Mismatches(m, Hor, 1) == [] by {
      assert RowMismatches(m, Hor, 0, 1) == [];
    }
    assert Mismatches(m, Ver, 1) == [] by {
      assert RowMismatches(m, Ver, 0, 1) == [];
    }
    assert ValidateCell(m[0][0]) == Pass;
    assert CellFaultFrom(m, 0, 1) == Pass;
  }
}
