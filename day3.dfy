/** Fabric claims: rectangular claims on a 1000x1000 sheet of fabric are
    recorded cell by cell; the checks count the cells claimed more than
    once and find the claim that overlaps no other. */
module FabricClaims {
  import opened Wrappers

  const FabricSize: nat := 1000

  /** A claim `#index @ left,top: widthxheight`; the parsed fields are
      digit strings, hence natural numbers. */
  datatype Claim = Claim(index: nat, left: nat, top: nat, width: nat, height: nat)
  {
    /** The last column of the claim (inclusive bound). */
    function Right(): (r: int)
      ensures r - left + 1 == width
    {
      left + width - 1
    }

    /** The last row of the claim (inclusive bound). */
    function Bottom(): (b: int)
      ensures b - top + 1 == height
    {
      top + height - 1
    }

    /** `occupies?`: the point lies in the inclusive rectangle. */
    predicate Occupies(x: int, y: int)
    {
      left <= x <= Right() && top <= y <= Bottom()
    }
  }

  /** `occupies?` is true exactly on the `width` columns from `left` and the
      `height` rows from `top`. */
  lemma OccupiesIff(c: Claim, x: int, y: int)
    ensures c.Occupies(x, y) <==> c.left <= x < c.left + c.width && c.top <= y < c.top + c.height
  {
  }

  /** The claim stays on the fabric whenever `record_claims!` touches a
      cell for it; a claim with no rows or no columns touches nothing. */
  predicate Fits(c: Claim)
  {
    c.width == 0 || c.height == 0 || (c.left + c.width <= FabricSize && c.top + c.height <= FabricSize)
  }

  /** The fabric `Array.new(1000) { Array.new(1000, 0) }`, indexed `[x, y]`. */
  predicate IsFabric(fabric: array2<nat>)
  {
    fabric.Length0 == FabricSize && fabric.Length1 == FabricSize
  }

  /** How many claims occupy the cell. */
  function Coverage(claims: seq<Claim>, x: int, y: int): (n: nat)
    ensures n <= |claims|
  {
    if claims == [] then 0
    else Coverage(claims[..|claims| - 1], x, y) + (if claims[|claims| - 1].Occupies(x, y) then 1 else 0)
  }

  /** A cell occupied by claim `i` has coverage exactly 1 iff no other claim
      occupies it. */
  lemma {:induction false} CoverageOne(claims: seq<Claim>, i: nat, x: int, y: int)
    requires i < |claims| && claims[i].Occupies(x, y)
    ensures Coverage(claims, x, y) == 1 <==>
      forall j :: 0 <= j < |claims| && j != i ==> !claims[j].Occupies(x, y)
  {
    var n := |claims| - 1;
    var init := claims[..n];
    if i == n {
      CoverageZero(init, x, y);
    } else {
      CoverageOne(init, i, x, y);
      if !claims[n].Occupies(x, y) {
        forall j | 0 <= j < |claims| && j != i && j != n
          ensures claims[j] == init[j]
        {
        }
      } else {
        CoveragePositive(init, i, x, y);
      }
    }
  }

  lemma {:induction false} CoverageZero(claims: seq<Claim>, x: int, y: int)
    ensures Coverage(claims, x, y) == 0 <==> forall j :: 0 <= j < |claims| ==> !claims[j].Occupies(x, y)
  {
    if claims != [] {
      var n := |claims| - 1;
      CoverageZero(claims[..n], x, y);
      assert forall j :: 0 <= j < n ==> claims[..n][j] == claims[j];
    }
  }

  lemma {:induction false} CoveragePositive(claims: seq<Claim>, i: nat, x: int, y: int)
    requires i < |claims| && claims[i].Occupies(x, y)
    ensures Coverage(claims, x, y) >= 1
  {
    var n := |claims| - 1;
    if i < n {
      CoveragePositive(claims[..n], i, x, y);
    }
  }

  /** One claim of `record_claims!`: each of its cells, row by row, gains 1;
      every other cell is unchanged. */
  method RecordClaim(claim: Claim, fabric: array2<nat>)
    requires IsFabric(fabric) && Fits(claim)
    modifies fabric
    ensures forall x, y :: 0 <= x < FabricSize && 0 <= y < FabricSize ==>
      fabric[x, y] == old(fabric[x, y]) + (if claim.Occupies(x, y) then 1 else 0)
  {
    for y := claim.top to claim.top + claim.height
      invariant forall i, j :: 0 <= i < FabricSize && 0 <= j < FabricSize ==>
        fabric[i, j] == old(fabric[i, j]) +
          (if claim.left <= i < claim.left + claim.width && claim.top <= j < y then 1 else 0)
    {
      for x := claim.left to claim.left + claim.width
        invariant forall i, j :: 0 <= i < FabricSize && 0 <= j < FabricSize ==>
          fabric[i, j] == old(fabric[i, j]) +
            (if claim.left <= i < claim.left + claim.width && (claim.top <= j < y || (j == y && i < x)) then 1 else 0)
      {
        fabric[x, y] := fabric[x, y] + 1;
      }
    }
  }

  /** `record_claims!`: every cell gains the number of claims occupying it. */
  method RecordClaims(claims: seq<Claim>, fabric: array2<nat>)
    requires IsFabric(fabric) && forall c :: c in claims ==> Fits(c)
    modifies fabric
    ensures forall x, y :: 0 <= x < FabricSize && 0 <= y < FabricSize ==>
      fabric[x, y] == old(fabric[x, y]) + Coverage(claims, x, y)
  {
    for k := 0 to |claims|
      invariant forall x, y :: 0 <= x < FabricSize && 0 <= y < FabricSize ==>
        fabric[x, y] == old(fabric[x, y]) + Coverage(claims[..k], x, y)
    {
      assert claims[k] in claims;
      RecordClaim(claims[k], fabric);
      assert claims[..k + 1][..k] == claims[..k];
    }
    assert claims[..|claims|] == claims;
  }

  // ---------------------------------------------------------------------
  // The number of cells a claim adds to the fabric's total.

  /** The cells of columns `0 .. n - 1` of row `y` that the claim occupies. */
  function RowCells(c: Claim, y: int, n: nat): nat
  {
    if n == 0 then 0 else RowCells(c, y, n - 1) + (if c.Occupies(n - 1, y) then 1 else 0)
  }

  /** The cells of rows `0 .. m - 1`, columns `0 .. n - 1`, that it occupies. */
  function GridCells(c: Claim, m: nat, n: nat): nat
  {
    if m == 0 then 0 else GridCells(c, m - 1, n) + RowCells(c, m - 1, n)
  }

  lemma {:induction false} RowCellsCount(c: Claim, y: int, n: nat)
    requires c.left + c.width <= n
    ensures RowCells(c, y, n) == if c.top <= y < c.top + c.height then c.width else 0
  {
    if n > 0 {
      if c.left + c.width <= n - 1 {
        RowCellsCount(c, y, n - 1);
      } else {
        RowCellsPrefix(c, y, n - 1);
      }
    }
  }

  /** Up to column `n`, a row of the claim holds the columns from `left`. */
  lemma {:induction false} RowCellsPrefix(c: Claim, y: int, n: nat)
    requires n <= c.left + c.width
    ensures RowCells(c, y, n) == if c.top <= y < c.top + c.height && n > c.left then n - c.left else 0
  {
    if n > 0 {
      RowCellsPrefix(c, y, n - 1);
    }
  }

  lemma {:induction false} GridCellsPrefix(c: Claim, m: nat, n: nat)
    requires c.left + c.width <= n && m <= c.top + c.height
    ensures GridCells(c, m, n) == if m > c.top then (m - c.top) * c.width else 0
  {
    if m > 0 {
      GridCellsPrefix(c, m - 1, n);
      RowCellsCount(c, m - 1, n);
      if m - 1 > c.top {
        assert (m - 1 - c.top) * c.width + c.width == (m - c.top) * c.width;
      }
    }
  }

  /** A claim that fits adds `width * height` to the fabric's total: its
      cells on the whole fabric number exactly that many. */
  lemma {:induction false} ClaimArea(c: Claim)
    requires Fits(c) && c.width > 0 && c.height > 0
    ensures GridCells(c, FabricSize, FabricSize) == c.width * c.height
  {
    GridCellsPrefix(c, c.top + c.height, FabricSize);
    GridCellsRest(c, FabricSize, FabricSize);
    assert (c.top + c.height - c.top) * c.width == c.width * c.height;
  }

  lemma {:induction false} GridCellsRest(c: Claim, m: nat, n: nat)
    requires c.left + c.width <= n && c.top + c.height <= m
    ensures GridCells(c, m, n) == GridCells(c, c.top + c.height, n)
  {
    if m > c.top + c.height {
      GridCellsRest(c, m - 1, n);
      RowCellsCount(c, m - 1, n);
    }
  }

  // ---------------------------------------------------------------------
  // The two checks.

  /** The cells of columns `0 .. n - 1` of row `y` holding 2 or more. */
  function MultiInRow(fabric: array2<nat>, y: nat, n: nat): nat
    requires IsFabric(fabric) && y < FabricSize && n <= FabricSize
    reads fabric
  {
    if n == 0 then 0 else MultiInRow(fabric, y, n - 1) + (if fabric[n - 1, y] >= 2 then 1 else 0)
  }

  /** The cells of rows `0 .. m - 1` holding 2 or more. */
  function MultiInRows(fabric: array2<nat>, m: nat): nat
    requires IsFabric(fabric) && m <= FabricSize
    reads fabric
  {
    if m == 0 then 0 else MultiInRows(fabric, m - 1) + MultiInRow(fabric, m - 1, FabricSize)
  }

  /** At most every cell is counted. */
  lemma {:induction false} MultiInRowsBound(fabric: array2<nat>, m: nat)
    requires IsFabric(fabric) && m <= FabricSize
    ensures MultiInRows(fabric, m) <= m * FabricSize
  {
    if m > 0 {
      MultiInRowsBound(fabric, m - 1);
      MultiInRowBound(fabric, m - 1, FabricSize);
    }
  }

  lemma {:induction false} MultiInRowBound(fabric: array2<nat>, y: nat, n: nat)
    requires IsFabric(fabric) && y < FabricSize && n <= FabricSize
    ensures MultiInRow(fabric, y, n) <= n
  {
    if n > 0 {
      MultiInRowBound(fabric, y, n - 1);
    }
  }

  /** On a fabric of cells below 2 nothing is counted. */
  lemma {:induction false} NoMultiInRows(fabric: array2<nat>, m: nat)
    requires IsFabric(fabric) && m <= FabricSize
    requires forall x, y :: 0 <= x < FabricSize && 0 <= y < FabricSize ==> fabric[x, y] < 2
    ensures MultiInRows(fabric, m) == 0
  {
    if m > 0 {
      NoMultiInRows(fabric, m - 1);
      NoMultiInRow(fabric, m - 1, FabricSize);
    }
  }

  lemma {:induction false} NoMultiInRow(fabric: array2<nat>, y: nat, n: nat)
    requires IsFabric(fabric) && y < FabricSize && n <= FabricSize
    requires forall x, y :: 0 <= x < FabricSize && 0 <= y < FabricSize ==> fabric[x, y] < 2
    ensures MultiInRow(fabric, y, n) == 0
  {
    if n > 0 {
      NoMultiInRow(fabric, y, n - 1);
    }
  }

  /** `count_multi_claim`: row by row, the cells claimed at least twice. */
  method CountMultiClaim(fabric: array2<nat>) returns (count: nat)
    requires IsFabric(fabric)
    ensures count == MultiInRows(fabric, FabricSize)
  {
    count := 0;
    for y := 0 to FabricSize
      invariant count == MultiInRows(fabric, y)
    {
      for x := 0 to FabricSize
        invariant count == MultiInRows(fabric, y) + MultiInRow(fabric, y, x)
      {
        if fabric[x, y] >= 2 {
          count := count + 1;
        }
      }
    }
  }

  /** Every cell of the claim holds exactly 1. */
  ghost predicate AloneOn(claim: Claim, fabric: array2<nat>)
    requires IsFabric(fabric)
    reads fabric
  {
    forall x, y :: 0 <= x < FabricSize && 0 <= y < FabricSize && claim.Occupies(x, y) ==> fabric[x, y] == 1
  }

  /** `non_overlapping_claim?`: the claim's cells, row by row, all hold 1. */
  method NonOverlappingClaim(claim: Claim, fabric: array2<nat>) returns (r: bool)
    requires IsFabric(fabric) && Fits(claim)
    ensures r <==> AloneOn(claim, fabric)
  {
    for y := claim.top to claim.top + claim.height
      invariant forall i, j :: claim.left <= i < claim.left + claim.width && claim.top <= j < y ==> fabric[i, j] == 1
    {
      for x := claim.left to claim.left + claim.width
        invariant forall i, j :: claim.left <= i < claim.left + claim.width && (claim.top <= j < y || (j == y && i < x)) ==> fabric[i, j] == 1
      {
        if fabric[x, y] != 1 {
          return false;
        }
      }
    }
    return true;
  }

  /** After every claim is recorded on an empty fabric, a claim is alone iff
      no other claim shares a cell with it. */
  lemma AloneIffNoOverlap(claims: seq<Claim>, i: nat, fabric: array2<nat>)
    requires IsFabric(fabric) && i < |claims| && Fits(claims[i])
    requires forall x, y :: 0 <= x < FabricSize && 0 <= y < FabricSize ==> fabric[x, y] == Coverage(claims, x, y)
    ensures AloneOn(claims[i], fabric) <==>
      forall j, x, y :: 0 <= j < |claims| && j != i && claims[i].Occupies(x, y) ==> !claims[j].Occupies(x, y)
  {
    var c := claims[i];
    forall x, y | c.Occupies(x, y)
      ensures 0 <= x < FabricSize && 0 <= y < FabricSize
    {
    }
    forall x, y | c.Occupies(x, y)
      ensures fabric[x, y] == 1 <==> forall j :: 0 <= j < |claims| && j != i ==> !claims[j].Occupies(x, y)
    {
      CoverageOne(claims, i, x, y);
    }
  }

  /** `find_claim`: the first claim, in list order, that is alone. */
  method FindClaim(claims: seq<Claim>, fabric: array2<nat>) returns (r: Option<Claim>)
    requires IsFabric(fabric) && forall c :: c in claims ==> Fits(c)
    ensures r.Some? ==> exists k :: (0 <= k < |claims| && claims[k] == r.value &&
      AloneOn(claims[k], fabric) && forall j :: 0 <= j < k ==> !AloneOn(claims[j], fabric))
    ensures r.None? ==> forall j :: 0 <= j < |claims| ==> !AloneOn(claims[j], fabric)
  {
    for k := 0 to |claims|
      invariant forall j :: 0 <= j < k ==> !AloneOn(claims[j], fabric)
    {
      assert claims[k] in claims;
      var alone := NonOverlappingClaim(claims[k], fabric);
      if alone {
        return Some(claims[k]);
      }
    }
    return None;
  }
}
