/** The order in which codeword bits fill the symbol (section 7.7.3 of ISO/IEC 18004:2015). */
module Zigzag {
  import opened Cells
  import opened Versions
  import opened FunctionPatterns

  type Grid = seq<seq<bool>>

  predicate IsGrid(g: Grid, n: nat) {
    |g| == n && forall y :: 0 <= y < n ==> |g[y]| == n
  }

  // ---------------------------------------------------------------------------
  // The traversal: column pairs from the right, each pair up or down in steps of one module
  // ---------------------------------------------------------------------------

  function Pairs(ver: Version): nat {
    2 * ver + 8
  }

  function Steps(ver: Version): nat {
    2 * Size(ver)
  }

  /** The right column of pair `p`; from the timing column on, the pairs shift left by one. */
  function Right(ver: Version, p: nat): int {
    var r := Size(ver) - 1 - 2 * p;
    if r <= 6 then r - 1 else r
  }

  predicate Upward(right: int) {
    (right + 1) / 2 % 2 == 0
  }

  function At(ver: Version, p: nat, q: nat): Cell {
    var right, vert := Right(ver, p), q / 2;
    (right - q % 2, if Upward(right) then Size(ver) - 1 - vert else vert)
  }

  /** The right column of the pair that contains column `x`. */
  function RightOf(x: int): int {
    if x > 6 then x + x % 2 else x + 1 - x % 2
  }

  function PairOf(ver: Version, x: int): int {
    var right := RightOf(x);
    (Size(ver) - 1 - (if x > 6 then right else right + 1)) / 2
  }

  function StepOf(ver: Version, x: int, y: int): int {
    var right := RightOf(x);
    2 * (if Upward(right) then Size(ver) - 1 - y else y) + (right - x)
  }

  predicate Earlier(p: int, q: int, p': int, q': int) {
    p < p' || (p == p' && q < q')
  }

  /** Every step of the traversal visits a cell outside column 6, and the cell tells which step it was. */
  lemma StepsAreDistinct(ver: Version, p: nat, q: nat)
    requires p < Pairs(ver) && q < Steps(ver)
    ensures var (x, y) := At(ver, p, q);
            Within(ver, x, y) && x != 6 && PairOf(ver, x) == p && StepOf(ver, x, y) == q
  {
    var right := Right(ver, p);
    assert right % 2 == if right > 6 then 0 else 1;
    assert RightOf(right) == right && RightOf(right - 1) == right;
  }

  /** Every cell outside column 6 is visited. */
  lemma EveryCellVisited(ver: Version, x: int, y: int)
    requires Within(ver, x, y) && x != 6
    ensures var p, q := PairOf(ver, x), StepOf(ver, x, y);
            0 <= p < Pairs(ver) && 0 <= q < Steps(ver) && At(ver, p, q) == (x, y)
  {
    var right := RightOf(x);
    assert right - 1 <= x <= right;
    assert Right(ver, PairOf(ver, x)) == right;
  }

  /**
   * The traversal starts at the bottom right. It goes left and right in turn in a row, from row to row within a pair
   * of columns, and on into the pair to the left, in the row where it stands, past the timing column.
   */
  lemma TraversalIsConnected(ver: Version, p: nat, q: nat)
    requires p < Pairs(ver) && q < Steps(ver)
    ensures At(ver, 0, 0) == (Size(ver) - 1, Size(ver) - 1)
    ensures var (x, y) := At(ver, p, q);
            && (q % 2 == 0 ==> q + 1 < Steps(ver) && At(ver, p, q + 1) == (x - 1, y))
            && (q % 2 == 1 && q + 1 < Steps(ver) ==> At(ver, p, q + 1) in {(x + 1, y - 1), (x + 1, y + 1)})
            && (q + 1 == Steps(ver) ==> At(ver, p + 1, 0) == (if x == 7 then 5 else x - 1, y))
  {
    RowThenUp(ver, p, q);
    if q + 1 == Steps(ver) {
      PairThenLeft(ver, p, q);
    }
    hide At;
    FirstStep(ver);
  }

  lemma FirstStep(ver: Version)
    ensures At(ver, 0, 0) == (Size(ver) - 1, Size(ver) - 1)
  {
    FourthIsUpward(ver + 4);
    hide Upward;
    assert Right(ver, 0) == 4 * (ver + 4);
  }

  lemma FourthIsUpward(k: nat)
    ensures Upward(4 * k)
  {
    assert (4 * k + 1) / 2 == 2 * k;
  }

  lemma RowThenUp(ver: Version, p: nat, q: nat)
    requires q < Steps(ver)
    ensures var (x, y) := At(ver, p, q);
            && (q % 2 == 0 ==> q + 1 < Steps(ver) && At(ver, p, q + 1) == (x - 1, y))
            && (q % 2 == 1 && q + 1 < Steps(ver) ==> At(ver, p, q + 1) in {(x + 1, y - 1), (x + 1, y + 1)})
  {
    hide Upward, Right, Size;
    if q % 2 == 0 {
      assert (q + 1) / 2 == q / 2 && (q + 1) % 2 == 1;
    } else {
      assert (q + 1) / 2 == q / 2 + 1 && (q + 1) % 2 == 0;
    }
  }

  lemma PairThenLeft(ver: Version, p: nat, q: nat)
    requires p < Pairs(ver) && q + 1 == Steps(ver)
    ensures var (x, y) := At(ver, p, q);
            At(ver, p + 1, 0) == (if x == 7 then 5 else x - 1, y)
  {
    NextPair(ver, p);
    hide Upward, Right, Size;
    assert q / 2 == Size(ver) - 1 && q % 2 == 1;
  }

  lemma NextPair(ver: Version, p: nat)
    requires p < Pairs(ver)
    ensures var right := Right(ver, p);
            Right(ver, p + 1) == (if right == 8 then 5 else right - 2) && Upward(Right(ver, p + 1)) == !Upward(right)
  {
    var right := Right(ver, p);
    assert (right - 2 + 1) / 2 == (right + 1) / 2 - 1;
    assert Upward(right - 2) == !Upward(right);
    assert !Upward(5) && Upward(8);
    hide Upward;
  }

  predicate IsDataStep(ver: Version, p: nat, q: nat) {
    var (x, y) := At(ver, p, q);
    !IsFunction(ver, x, y)
  }

  /** The number of data modules visited before step `q` of pair `p`. */
  function Rank(ver: Version, p: nat, q: nat): nat
    decreases p, q
  {
    if q > 0 then Rank(ver, p, q - 1) + (if IsDataStep(ver, p, q - 1) then 1 else 0)
    else if p > 0 then Rank(ver, p - 1, Steps(ver))
    else 0
  }

  ghost function Visited(ver: Version, p: nat, q: nat): set<Cell>
    decreases p, q
  {
    if q > 0 then Visited(ver, p, q - 1) + (if IsDataStep(ver, p, q - 1) then {At(ver, p, q - 1)} else {})
    else if p > 0 then Visited(ver, p - 1, Steps(ver))
    else {}
  }

  lemma {:induction false} VisitedAre(ver: Version, p: nat, q: nat, x: int, y: int)
    requires p <= Pairs(ver) && q <= Steps(ver) && (p == Pairs(ver) ==> q == 0)
    ensures (x, y) in Visited(ver, p, q) <==>
            Within(ver, x, y) && !IsFunction(ver, x, y) && Earlier(PairOf(ver, x), StepOf(ver, x, y), p, q)
    decreases p, q
  {
    hide IsFunction, At, PairOf, StepOf;
    if Within(ver, x, y) && x != 6 {
      EveryCellVisited(ver, x, y);
    }
    if q > 0 {
      VisitedAre(ver, p, q - 1, x, y);
      StepsAreDistinct(ver, p, q - 1);
      ColumnSix(ver, x, y);
    } else if p > 0 {
      VisitedAre(ver, p - 1, Steps(ver), x, y);
      ColumnSix(ver, x, y);
    } else {
      ColumnSix(ver, x, y);
    }
  }

  lemma ColumnSix(ver: Version, x: int, y: int)
    ensures x == 6 ==> IsFunction(ver, x, y)
  {
  }

  /** No step comes upon a cell for the second time. */
  lemma NotYetVisited(ver: Version, p: nat, q: nat)
    requires p < Pairs(ver) && q < Steps(ver)
    ensures Apart(Visited(ver, p, q), {At(ver, p, q)})
  {
    hide IsFunction, At, PairOf, StepOf, Visited;
    var (x, y) := At(ver, p, q);
    StepsAreDistinct(ver, p, q);
    VisitedAre(ver, p, q, x, y);
  }

  /** One step adds its cell to both, if that is a data module. */
  lemma VisitOne(ver: Version, p: nat, q: nat)
    requires p < Pairs(ver) && q < Steps(ver) && |Visited(ver, p, q)| == Rank(ver, p, q)
    ensures |Visited(ver, p, q + 1)| == Rank(ver, p, q + 1)
  {
    NotYetVisited(ver, p, q);
    var before, next := Visited(ver, p, q), Visited(ver, p, q + 1);
    assert next == before + if IsDataStep(ver, p, q) then {At(ver, p, q)} else {};
    assert Rank(ver, p, q + 1) == Rank(ver, p, q) + if IsDataStep(ver, p, q) then 1 else 0;
    hide Visited, Rank, IsDataStep, At, Apart, Pairs, Steps;
    UnionSize(before, {At(ver, p, q)});
  }

  lemma {:induction false} VisitedCount(ver: Version, p: nat, q: nat)
    requires p <= Pairs(ver) && q <= Steps(ver) && (p == Pairs(ver) ==> q == 0)
    ensures |Visited(ver, p, q)| == Rank(ver, p, q)
    decreases p, q
  {
    hide IsDataStep, At, Pairs, Steps;
    if q > 0 {
      VisitedCount(ver, p, q - 1);
      hide Visited, Rank;
      VisitOne(ver, p, q - 1);
    } else if p > 0 {
      VisitedCount(ver, p - 1, Steps(ver));
    }
  }

  /** The traversal visits exactly as many data modules as the formula says. */
  lemma TotalRank(ver: Version)
    ensures Rank(ver, Pairs(ver), 0) == NumRawDataModules(ver)
  {
    hide IsFunction, At, PairOf, StepOf, Rank, Visited, NumRawDataModules, AllCells;
    VisitedCount(ver, Pairs(ver), 0);
    DataCellCount(ver);
    forall c: Cell
      ensures c in Visited(ver, Pairs(ver), 0) <==> c in DataCells(ver)
    {
      VisitedAre(ver, Pairs(ver), 0, c.0, c.1);
      InAll(ver, c.0, c.1);
      if Within(ver, c.0, c.1) && c.0 != 6 {
        EveryCellVisited(ver, c.0, c.1);
      }
      ColumnSix(ver, c.0, c.1);
    }
    assert Visited(ver, Pairs(ver), 0) == DataCells(ver);
  }

  // ---------------------------------------------------------------------------
  // Placing bits and reading them back
  // ---------------------------------------------------------------------------

  /** The value that placement leaves at a data module: its bit, or light once the bits have run out. */
  function DataModule(ver: Version, bits: seq<bool>, x: int, y: int): bool
    requires Within(ver, x, y) && x != 6
  {
    EveryCellVisited(ver, x, y);
    var k := Rank(ver, PairOf(ver, x), StepOf(ver, x, y));
    k < |bits| && bits[k]
  }

  /** The values of the data modules in traversal order. */
  function ReadModules(ver: Version, g: Grid, p: nat, q: nat): seq<bool>
    requires IsGrid(g, Size(ver))
    requires p <= Pairs(ver) && q <= Steps(ver) && (p == Pairs(ver) ==> q == 0)
    decreases p, q
  {
    if q > 0 then
      StepsAreDistinct(ver, p, q - 1);
      var (x, y) := At(ver, p, q - 1);
      ReadModules(ver, g, p, q - 1) + (if IsDataStep(ver, p, q - 1) then [g[y][x]] else [])
    else if p > 0 then ReadModules(ver, g, p - 1, Steps(ver))
    else []
  }

  /** Placement is injective and in order: reading the data modules gives the bits and then light modules. */
  lemma {:induction false} ReadBack(ver: Version, g: Grid, bits: seq<bool>, p: nat, q: nat)
    requires IsGrid(g, Size(ver))
    requires p <= Pairs(ver) && q <= Steps(ver) && (p == Pairs(ver) ==> q == 0)
    requires forall x, y :: Within(ver, x, y) && x != 6 && !IsFunction(ver, x, y) ==>
               g[y][x] == DataModule(ver, bits, x, y)
    ensures |ReadModules(ver, g, p, q)| == Rank(ver, p, q)
    ensures forall k :: 0 <= k < Rank(ver, p, q) ==> ReadModules(ver, g, p, q)[k] == (k < |bits| && bits[k])
    decreases p, q
  {
    hide IsFunction, At, PairOf, StepOf;
    if q > 0 {
      ReadBack(ver, g, bits, p, q - 1);
      StepsAreDistinct(ver, p, q - 1);
    } else if p > 0 {
      ReadBack(ver, g, bits, p - 1, Steps(ver));
    }
  }
}
