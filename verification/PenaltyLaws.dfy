/** What the penalty score depends on: its value on known patterns, and its symmetry. */
module PenaltyLaws {
  import opened Numbers
  import opened Cells
  import opened Runs
  import opened Zigzag
  import opened PenaltyRules

  // ---------------------------------------------------------------------------
  // One line
  // ---------------------------------------------------------------------------

  /** A light margin of four modules, the finder ratios, and a light module behind. */
  const MARGIN_BEFORE: Line :=
    [false, false, false, false, true, false, true, true, true, false, true, false]

  const MARGIN_AFTER: Line :=
    [false, true, false, true, true, true, false, true, false, false, false, false]

  /** The line shows `pattern` from `lo` on, every module drawn `n` times. */
  ghost predicate ShowsScaled(line: Line, lo: int, n: nat, pattern: Line) {
    && n > 0 && 0 <= lo && lo + |pattern| * n <= |line|
    && forall k :: 0 <= k < |pattern| ==> StretchOf(line, lo, n, pattern, k)
  }

  ghost predicate StretchOf(line: Line, lo: int, n: nat, pattern: Line, k: nat)
    requires k < |pattern|
  {
    Stretch(line, lo + k * n, lo + k * n + n, pattern[k])
  }

  lemma StretchWithin(line: Line, lo: int, hi: int, dark: bool)
    ensures Stretch(line, lo, hi, dark) ==> 0 <= lo <= hi <= |line|
  {
  }

  lemma TwelveBefore(line: Line, lo: int, n: nat)
    requires n > 0
    ensures ShowsScaled(line, lo, n, MARGIN_BEFORE) <==>
            && Stretch(line, lo, lo + n, false) && Stretch(line, lo + n, lo + 2 * n, false)
            && Stretch(line, lo + 2 * n, lo + 3 * n, false) && Stretch(line, lo + 3 * n, lo + 4 * n, false)
            && Stretch(line, lo + 4 * n, lo + 5 * n, true) && Stretch(line, lo + 5 * n, lo + 6 * n, false)
            && Stretch(line, lo + 6 * n, lo + 7 * n, true) && Stretch(line, lo + 7 * n, lo + 8 * n, true)
            && Stretch(line, lo + 8 * n, lo + 9 * n, true) && Stretch(line, lo + 9 * n, lo + 10 * n, false)
            && Stretch(line, lo + 10 * n, lo + 11 * n, true) && Stretch(line, lo + 11 * n, lo + 12 * n, false)
  {
    StretchWithin(line, lo, lo + n, false);
    StretchWithin(line, lo + 11 * n, lo + 12 * n, false);
    hide Stretch;
    if ShowsScaled(line, lo, n, MARGIN_BEFORE) {
      assert forall k :: 0 <= k < 12 ==> StretchOf(line, lo, n, MARGIN_BEFORE, k);
      assert StretchOf(line, lo, n, MARGIN_BEFORE, 0) && StretchOf(line, lo, n, MARGIN_BEFORE, 1)
             && StretchOf(line, lo, n, MARGIN_BEFORE, 2);
      assert StretchOf(line, lo, n, MARGIN_BEFORE, 3) && StretchOf(line, lo, n, MARGIN_BEFORE, 4)
             && StretchOf(line, lo, n, MARGIN_BEFORE, 5);
      assert StretchOf(line, lo, n, MARGIN_BEFORE, 6) && StretchOf(line, lo, n, MARGIN_BEFORE, 7)
             && StretchOf(line, lo, n, MARGIN_BEFORE, 8);
      assert StretchOf(line, lo, n, MARGIN_BEFORE, 9) && StretchOf(line, lo, n, MARGIN_BEFORE, 10)
             && StretchOf(line, lo, n, MARGIN_BEFORE, 11);
    }
  }

  lemma TwelveAfter(line: Line, lo: int, n: nat)
    requires n > 0
    ensures ShowsScaled(line, lo, n, MARGIN_AFTER) <==>
            && Stretch(line, lo, lo + n, false) && Stretch(line, lo + n, lo + 2 * n, true)
            && Stretch(line, lo + 2 * n, lo + 3 * n, false) && Stretch(line, lo + 3 * n, lo + 4 * n, true)
            && Stretch(line, lo + 4 * n, lo + 5 * n, true) && Stretch(line, lo + 5 * n, lo + 6 * n, true)
            && Stretch(line, lo + 6 * n, lo + 7 * n, false) && Stretch(line, lo + 7 * n, lo + 8 * n, true)
            && Stretch(line, lo + 8 * n, lo + 9 * n, false) && Stretch(line, lo + 9 * n, lo + 10 * n, false)
            && Stretch(line, lo + 10 * n, lo + 11 * n, false) && Stretch(line, lo + 11 * n, lo + 12 * n, false)
  {
    StretchWithin(line, lo, lo + n, false);
    StretchWithin(line, lo + 11 * n, lo + 12 * n, false);
    hide Stretch;
    if ShowsScaled(line, lo, n, MARGIN_AFTER) {
      assert forall k :: 0 <= k < 12 ==> StretchOf(line, lo, n, MARGIN_AFTER, k);
      assert StretchOf(line, lo, n, MARGIN_AFTER, 0) && StretchOf(line, lo, n, MARGIN_AFTER, 1)
             && StretchOf(line, lo, n, MARGIN_AFTER, 2);
      assert StretchOf(line, lo, n, MARGIN_AFTER, 3) && StretchOf(line, lo, n, MARGIN_AFTER, 4)
             && StretchOf(line, lo, n, MARGIN_AFTER, 5);
      assert StretchOf(line, lo, n, MARGIN_AFTER, 6) && StretchOf(line, lo, n, MARGIN_AFTER, 7)
             && StretchOf(line, lo, n, MARGIN_AFTER, 8);
      assert StretchOf(line, lo, n, MARGIN_AFTER, 9) && StretchOf(line, lo, n, MARGIN_AFTER, 10)
             && StretchOf(line, lo, n, MARGIN_AFTER, 11);
    }
  }

  lemma JoinStretches(line: Line, lo: int, mid: int, hi: int, dark: bool)
    requires lo <= mid <= hi
    ensures Stretch(line, lo, hi, dark) <==> Stretch(line, lo, mid, dark) && Stretch(line, mid, hi, dark)
  {
    if Stretch(line, lo, mid, dark) && Stretch(line, mid, hi, dark) {
      forall i | lo <= i < hi
        ensures line[i] == dark
      {
        assert lo <= i < mid || mid <= i < hi;
      }
    }
  }

  /** What counts is the finder pattern at any scale, with a margin of four on one side and of one on the other. */
  lemma CountedIsScaled(line: Line, e: int, n: nat)
    ensures PatternEndsAt(line, e, n, 4 * n, n) <==> ShowsScaled(line, e - 11 * n, n, MARGIN_BEFORE)
    ensures PatternEndsAt(line, e, n, n, 4 * n) <==> ShowsScaled(line, e - 8 * n, n, MARGIN_AFTER)
  {
    if n > 0 {
      CountedBefore(line, e - 11 * n, n);
      CountedAfter(line, e - 8 * n, n);
    }
    hide Stretch;
  }

  lemma CountedBefore(line: Line, lo: int, n: nat)
    requires n > 0
    ensures PatternEndsAt(line, lo + 11 * n, n, 4 * n, n) <==> ShowsScaled(line, lo, n, MARGIN_BEFORE)
  {
    TwelveBefore(line, lo, n);
    hide Stretch, ShowsScaled;
    JoinStretches(line, lo, lo + n, lo + 4 * n, false);
    JoinStretches(line, lo + n, lo + 2 * n, lo + 4 * n, false);
    JoinStretches(line, lo + 2 * n, lo + 3 * n, lo + 4 * n, false);
    JoinStretches(line, lo + 6 * n, lo + 7 * n, lo + 9 * n, true);
    JoinStretches(line, lo + 7 * n, lo + 8 * n, lo + 9 * n, true);
  }

  lemma CountedAfter(line: Line, lo: int, n: nat)
    requires n > 0
    ensures PatternEndsAt(line, lo + 8 * n, n, n, 4 * n) <==> ShowsScaled(line, lo, n, MARGIN_AFTER)
  {
    TwelveAfter(line, lo, n);
    hide Stretch, ShowsScaled;
    JoinStretches(line, lo + 3 * n, lo + 4 * n, lo + 6 * n, true);
    JoinStretches(line, lo + 4 * n, lo + 5 * n, lo + 6 * n, true);
    JoinStretches(line, lo + 8 * n, lo + 9 * n, lo + 12 * n, false);
    JoinStretches(line, lo + 9 * n, lo + 10 * n, lo + 12 * n, false);
    JoinStretches(line, lo + 10 * n, lo + 11 * n, lo + 12 * n, false);
  }

  ghost function EndsBefore(line: Line, m: nat): set<int> {
    set e | 1 <= e <= m && WidePatternBefore(line, e)
  }

  ghost function EndsAfter(line: Line, m: nat): set<int> {
    set e | 1 <= e <= m && WidePatternAfter(line, e)
  }

  lemma EndsStep(line: Line, m: nat)
    ensures |EndsBefore(line, m + 1)| == |EndsBefore(line, m)| + if WidePatternBefore(line, m + 1) then 1 else 0
    ensures |EndsAfter(line, m + 1)| == |EndsAfter(line, m)| + if WidePatternAfter(line, m + 1) then 1 else 0
  {
    hide WidePatternBefore, WidePatternAfter;
    AddEnd(EndsBefore(line, m), EndsBefore(line, m + 1), m + 1);
    AddEnd(EndsAfter(line, m), EndsAfter(line, m + 1), m + 1);
  }

  lemma AddEnd<T>(ends: set<T>, more: set<T>, e: T)
    requires e !in ends && ends <= more && forall i :: i in more && i != e ==> i in ends
    ensures |more| == |ends| + if e in more then 1 else 0
  {
    if e in more {
      assert more == ends + {e};
    } else {
      assert more == ends;
    }
  }

  /** The score of patterns counts the places where one ends, once for each kind of margin. */
  lemma {:induction false} CountsPlaces(line: Line, m: nat)
    ensures PatternCount(line, m) == |EndsBefore(line, m)| + |EndsAfter(line, m)|
  {
    hide WidePatternBefore, WidePatternAfter;
    if m == 0 {
      assert EndsBefore(line, 0) == {} && EndsAfter(line, 0) == {};
    } else {
      CountsPlaces(line, m - 1);
      EndsStep(line, m - 1);
      hide EndsBefore, EndsAfter;
    }
  }

  /** Runs are charged one by one. */
  lemma {:induction false} RunCostsAdd(r: seq<nat>, s: seq<nat>)
    ensures RunCosts(r + s) == RunCosts(r) + RunCosts(s)
  {
    if s == [] {
      assert r + s == r;
    } else {
      RunCostsAdd(r, s[..|s| - 1]);
      assert (r + s)[..|r + s| - 1] == r + s[..|s| - 1];
    }
  }

  function Uniform(n: nat, c: bool): (line: Line)
    ensures |line| == n
  {
    seq(n, _ => c)
  }

  lemma {:induction false} UniformRuns(n: nat, c: bool)
    ensures RunsOf(Uniform(n, c)) == if !c then [n] else if n == 0 then [0] else [0, n]
  {
    if n > 0 {
      UniformRuns(n - 1, c);
      assert Uniform(n, c)[..n - 1] == Uniform(n - 1, c);
    }
  }

  /** A line of one colour costs three for its first five modules and one for each further one. */
  lemma UniformLine(n: nat, c: bool)
    requires n > 0
    ensures LinePenalty(Uniform(n, c)) == if n < 5 then 0 else 3 + (n - 5)
  {
    UniformRuns(n, c);
    BorderedRuns(Uniform(n, c));
    hide RunsOf, PatternCount;
    if c {
      assert BorderLast(BorderFirst([0, n], n), n) == [n, n, n];
      ThreeWindows(n);
      assert RunCosts([0, n]) == RunCosts([0]) + RunCost(n);
    } else {
      assert BorderLast(BorderFirst([n], n), n) == [n + n + n];
      assert WindowSum([n + n + n], 1) == 0;
    }
    assert RunCosts([n]) == RunCost(n) && RunCosts([0]) == 0;
  }

  lemma ThreeWindows(n: nat)
    ensures WindowSum([n, n, n], 3) == 0
  {
    var r := [n, n, n];
    assert CountPatterns(History(r, 1)) == 0;
    assert CountPatterns(History(r, 3)) == 0;
    hide History, CountPatterns;
    assert WindowSum(r, 1) == CountPatterns(History(r, 1));
    assert WindowSum(r, 2) == WindowSum(r, 1);
  }

  /** The line with the given runs, the first light. */
  function Drawn(r: seq<nat>): Line {
    if r == [] then [] else Drawn(r[..|r| - 1]) + Uniform(r[|r| - 1], |r| % 2 == 0)
  }

  lemma OtherColour(line: Line, r: seq<nat>)
    requires RunsOf(line) == r
    ensures RunsOf(line + [|r| % 2 == 1]) == r + [1]
  {
    assert (line + [|r| % 2 == 1])[..|line|] == line;
  }

  lemma SameColour(line: Line, r: seq<nat>, n: nat)
    requires RunsOf(line) == r + [n]
    ensures RunsOf(line + [|r| % 2 == 1]) == r + [n + 1]
  {
    assert (line + [|r| % 2 == 1])[..|line|] == line;
  }

  lemma {:induction false} DrawnRun(line: Line, r: seq<nat>, n: nat)
    requires RunsOf(line) == r && n > 0
    ensures RunsOf(line + Uniform(n, |r| % 2 == 1)) == r + [n]
  {
    hide RunsOf;
    var c := |r| % 2 == 1;
    if n == 1 {
      assert Uniform(1, c) == [c];
      OtherColour(line, r);
    } else {
      DrawnRun(line, r, n - 1);
      assert line + Uniform(n, c) == line + Uniform(n - 1, c) + [c];
      SameColour(line + Uniform(n - 1, c), r, n - 1);
    }
  }

  /** A line drawn from runs has these runs. */
  lemma {:induction false} RunsOfDrawn(r: seq<nat>)
    requires r != [] && forall k :: 1 <= k < |r| ==> r[k] > 0
    ensures RunsOf(Drawn(r)) == r
  {
    hide RunsOf;
    var last := |r| - 1;
    DrawnLast(r);
    hide Drawn;
    if last == 0 {
      UniformRuns(r[0], false);
    } else {
      var s := r[..last];
      RunsOfDrawn(s);
      DrawnRun(Drawn(s), s, r[last]);
      assert r == s + [r[last]];
    }
  }

  lemma DrawnLast(r: seq<nat>)
    requires r != []
    ensures Drawn(r) == Drawn(r[..|r| - 1]) + Uniform(r[|r| - 1], |r[..|r| - 1]| % 2 == 1)
    ensures |r| == 1 ==> Drawn(r) == Uniform(r[0], false)
  {
    assert Drawn(r[..0]) == [];
  }

  lemma {:induction false} DrawnLength(r: seq<nat>)
    requires r != []
    ensures |Drawn(r)| == End(r, |r| - 1)
  {
    var s := r[..|r| - 1];
    DrawnLast(r);
    hide Drawn;
    if s != [] {
      DrawnLength(s);
      EndPrefix(s, r, |s| - 1);
    }
  }

  /**
   * A finder pattern at scale `n` costs forty for each of its two margins in the light surround, and its runs of five
   * and more modules as they are.
   */
  lemma FinderLine(n: nat)
    requires n > 0
    ensures LinePenalty(Drawn([0, n, n, 3 * n, n, n])) == 80 + 4 * RunCost(n) + RunCost(3 * n)
  {
    var r: seq<nat> := [0, n, n, 3 * n, n, n];
    var line := Drawn(r);
    RunsOfDrawn(r);
    FinderLength(n);
    BorderedRuns(line);
    hide RunsOf, PatternCount, Drawn, RunCosts, RunCost, WindowSum;
    FinderRunCosts(n);
    FinderBorders(n);
  }

  lemma FinderBorders(n: nat)
    requires n > 0
    ensures var s := BorderLast(BorderFirst([0, n, n, 3 * n, n, n], 7 * n), 7 * n);
            WindowSum(s, |s|) == 2
  {
    var s := [7 * n, n, n, 3 * n, n, n, 7 * n];
    assert BorderLast(BorderFirst([0, n, n, 3 * n, n, n], 7 * n), 7 * n) == s;
    hide WindowSum;
    FinderWindows(s, n);
  }

  lemma FinderLength(n: nat)
    ensures |Drawn([0, n, n, 3 * n, n, n])| == 7 * n
  {
    var r: seq<nat> := [0, n, n, 3 * n, n, n];
    DrawnLength(r);
    hide Drawn;
    assert End(r, 2) == 2 * n;
    assert End(r, 5) == 7 * n;
  }

  lemma FinderRunCosts(n: nat)
    ensures RunCosts([0, n, n, 3 * n, n, n]) == 4 * RunCost(n) + RunCost(3 * n)
  {
    assert RunCosts([]) == 0 && RunCosts([0]) == RunCosts([]) + RunCost(0);
    hide RunCosts;
    OneMoreCost([0], n);
    OneMoreCost([0, n], n);
    OneMoreCost([0, n, n], 3 * n);
    OneMoreCost([0, n, n, 3 * n], n);
    OneMoreCost([0, n, n, 3 * n, n], n);
    assert [0] + [n] == [0, n] && [0, n] + [n] == [0, n, n] && [0, n, n] + [3 * n] == [0, n, n, 3 * n];
    assert [0, n, n, 3 * n] + [n] == [0, n, n, 3 * n, n];
    assert [0, n, n, 3 * n, n] + [n] == [0, n, n, 3 * n, n, n];
  }

  lemma OneMoreCost(r: seq<nat>, n: nat)
    ensures RunCosts(r + [n]) == RunCosts(r) + RunCost(n)
  {
    assert (r + [n])[..|r|] == r;
  }

  lemma FinderWindows(r: seq<nat>, n: nat)
    requires n > 0 && r == [7 * n, n, n, 3 * n, n, n, 7 * n]
    ensures WindowSum(r, 7) == 2
  {
    assert CountPatterns(History(r, 1)) == 0;
    assert CountPatterns(History(r, 3)) == 0;
    assert CountPatterns(History(r, 5)) == 0;
    assert CountPatterns(History(r, 7)) == 2;
    hide History, CountPatterns;
    assert WindowSum(r, 2) == WindowSum(r, 1) == 0;
    assert WindowSum(r, 4) == WindowSum(r, 3) == 0;
    assert WindowSum(r, 6) == WindowSum(r, 5) == 0;
  }

  // ---------------------------------------------------------------------------
  // Blocks and dark modules are counted by their cells
  // ---------------------------------------------------------------------------

  ghost function BlockCells(g: Grid): set<Cell>
    requires IsGrid(g, |g|)
  {
    set x, y | 0 <= x < |g| - 1 && 0 <= y < |g| - 1 &&
               g[y][x] == g[y][x + 1] && g[y][x] == g[y + 1][x] && g[y][x] == g[y + 1][x + 1] :: (x, y)
  }

  ghost function DarkCells(g: Grid): set<Cell>
    requires IsGrid(g, |g|)
  {
    set x, y | 0 <= x < |g| && 0 <= y < |g| && g[y][x] :: (x, y)
  }

  /** Cells of row `y` left of column `n`. */
  ghost function InRow(cells: set<Cell>, y: nat, n: nat): set<Cell> {
    set c | c in cells && c.1 == y && 0 <= c.0 < n
  }

  ghost function Below(cells: set<Cell>, n: nat): set<Cell> {
    set c | c in cells && 0 <= c.1 < n
  }

  lemma NoCells(cells: set<Cell>, y: nat)
    ensures InRow(cells, y, 0) == {} && Below(cells, 0) == {}
  {
  }

  lemma InRowStep(cells: set<Cell>, y: nat, n: nat)
    ensures |InRow(cells, y, n + 1)| == |InRow(cells, y, n)| + if (n, y) in cells then 1 else 0
  {
    assert InRow(cells, y, n + 1) == InRow(cells, y, n) + if (n, y) in cells then {(n, y)} else {};
  }

  lemma BelowStep(cells: set<Cell>, n: nat, width: nat)
    requires forall c :: c in cells ==> 0 <= c.0 < width
    ensures |Below(cells, n + 1)| == |Below(cells, n)| + |InRow(cells, n, width)|
  {
    var before, row := Below(cells, n), InRow(cells, n, width);
    assert Below(cells, n + 1) == before + row;
    assert Apart(before, row);
    hide Below, InRow, Apart;
    UnionSize(before, row);
  }

  lemma {:induction false} BlocksOfRow(g: Grid, y: nat, n: nat)
    requires IsGrid(g, |g|) && y + 1 < |g| && n < |g|
    ensures BlocksInRow(g, y, n) == |InRow(BlockCells(g), y, n)|
  {
    NoCells(BlockCells(g), y);
    hide InRow;
    if n > 0 {
      BlocksOfRow(g, y, n - 1);
      InRowStep(BlockCells(g), y, n - 1);
      assert (n - 1, y) in BlockCells(g) <==> IsBlock(g, n - 1, y);
    }
  }

  lemma {:induction false} BlocksAre(g: Grid, n: nat)
    requires IsGrid(g, |g|) && n < |g|
    ensures Blocks(g, n) == |Below(BlockCells(g), n)|
  {
    NoCells(BlockCells(g), 0);
    hide InRow, Below, BlocksInRow;
    if n > 0 {
      BlocksAre(g, n - 1);
      BlocksOfRow(g, n - 1, |g| - 1);
      BelowStep(BlockCells(g), n - 1, |g| - 1);
    }
  }

  lemma {:induction false} DarkOfRow(g: Grid, y: nat, n: nat)
    requires IsGrid(g, |g|) && y < |g| && n <= |g|
    ensures DarkInRow(g[y], n) == |InRow(DarkCells(g), y, n)|
  {
    NoCells(DarkCells(g), y);
    hide InRow;
    if n > 0 {
      DarkOfRow(g, y, n - 1);
      InRowStep(DarkCells(g), y, n - 1);
      assert (n - 1, y) in DarkCells(g) <==> g[y][n - 1];
    }
  }

  lemma {:induction false} DarkAre(g: Grid, n: nat)
    requires IsGrid(g, |g|) && n <= |g|
    ensures DarkModules(g, n) == |Below(DarkCells(g), n)|
  {
    NoCells(DarkCells(g), 0);
    hide InRow, Below, DarkInRow;
    if n > 0 {
      DarkAre(g, n - 1);
      DarkOfRow(g, n - 1, |g|);
      BelowStep(DarkCells(g), n - 1, |g|);
    }
  }

  /** The score counts the cells at the top left of four modules of one colour, and the dark modules, each once. */
  lemma CellsAreCounted(g: Grid)
    requires IsGrid(g, |g|) && g != []
    ensures Blocks(g, |g| - 1) == |BlockCells(g)| && DarkModules(g, |g|) == |DarkCells(g)|
  {
    BlocksAre(g, |g| - 1);
    DarkAre(g, |g|);
    hide Blocks, DarkModules;
    assert Below(BlockCells(g), |g| - 1) == BlockCells(g);
    assert Below(DarkCells(g), |g|) == DarkCells(g);
  }

  // ---------------------------------------------------------------------------
  // Symmetry
  // ---------------------------------------------------------------------------

  /** `t` is `g` with rows and columns exchanged. */
  predicate Transposed(g: Grid, t: Grid) {
    IsGrid(g, |g|) && IsGrid(t, |g|) && forall x, y :: 0 <= x < |g| && 0 <= y < |g| ==> t[y][x] == g[x][y]
  }

  lemma {:induction false} ColumnsAreRows(g: Grid, t: Grid, n: nat)
    requires Transposed(g, t) && n <= |g|
    ensures ColumnPenalties(g, n) == RowPenalties(t, n)
  {
    hide LinePenalty;
    if n > 0 {
      ColumnsAreRows(g, t, n - 1);
      assert Column(g, n - 1) == t[n - 1];
    }
  }

  ghost function Flipped(cells: set<Cell>): set<Cell> {
    set c | c in cells :: (c.1, c.0)
  }

  lemma {:induction false} FlippedSize(cells: set<Cell>)
    ensures |Flipped(cells)| == |cells|
  {
    if cells == {} {
      assert Flipped(cells) == {};
    } else {
      var c :| c in cells;
      FlippedSize(cells - {c});
      assert Flipped(cells) == Flipped(cells - {c}) + {(c.1, c.0)};
    }
  }

  lemma CellsFlip(g: Grid, t: Grid)
    requires Transposed(g, t)
    ensures BlockCells(t) == Flipped(BlockCells(g)) && DarkCells(t) == Flipped(DarkCells(g))
  {
    forall x, y
      ensures (x, y) in BlockCells(t) <==> (y, x) in BlockCells(g)
      ensures (x, y) in DarkCells(t) <==> (y, x) in DarkCells(g)
    {
    }
    hide BlockCells, DarkCells, Transposed;
    FlippedIs(BlockCells(g), BlockCells(t));
    FlippedIs(DarkCells(g), DarkCells(t));
  }

  lemma FlippedIs(cells: set<Cell>, flipped: set<Cell>)
    requires forall x, y :: (x, y) in flipped <==> (y, x) in cells
    ensures flipped == Flipped(cells)
  {
    forall x, y
      ensures (x, y) in flipped <==> (x, y) in Flipped(cells)
    {
      var d := (y, x);
      assert (d.1, d.0) == (x, y);
      assert d in cells <==> (x, y) in flipped;
    }
    forall c: Cell
      ensures c in flipped <==> c in Flipped(cells)
    {
      assert c == (c.0, c.1);
    }
  }

  /** Rows and columns weigh the same: a grid and its transpose have the same penalty. */
  lemma PenaltyIsSymmetric(g: Grid, t: Grid)
    requires Transposed(g, t) && g != []
    ensures ColumnPenalties(g, |g|) == RowPenalties(t, |g|) && RowPenalties(g, |g|) == ColumnPenalties(t, |g|)
    ensures Penalty(t) == Penalty(g)
  {
    hide RowPenalties, ColumnPenalties, Blocks, DarkModules, Deviation;
    ColumnsAreRows(g, t, |g|);
    ColumnsAreRows(t, g, |g|);
    CellsAreCounted(g);
    CellsAreCounted(t);
    CellsFlip(g, t);
    hide BlockCells, DarkCells, Flipped, Transposed;
    FlippedSize(BlockCells(g));
    FlippedSize(DarkCells(g));
  }

  /** Of grids of one colour, the greatest deviation and all blocks and lines count. */
  lemma MonochromePenalty(g: Grid, n: nat, c: bool)
    requires n >= 5 && IsGrid(g, n) && forall x, y :: 0 <= x < n && 0 <= y < n ==> g[y][x] == c
    ensures Penalty(g) == 2 * (n * (n - 2)) + 3 * ((n - 1) * (n - 1)) + 90
  {
    hide Penalty, BlockCells, DarkCells, LinePenalty;
    UniformRows(g, n, c, n);
    CellsAreCounted(g);
    UniformBlocks(g, n, c);
    UniformDark(g, n, c);
    assert Transposed(g, g);
    ColumnsAreRows(g, g, n);
    UniformDeviation(n * n);
    UniformSum(g, n, c);
  }

  lemma UniformSum(g: Grid, n: nat, c: bool)
    requires n >= 5 && IsGrid(g, n)
    requires RowPenalties(g, n) == ColumnPenalties(g, n) == n * (n - 2)
    requires Blocks(g, n - 1) == (n - 1) * (n - 1) && DarkModules(g, n) == if c then n * n else 0
    requires n * n > 0 && Deviation(0, n * n) == 9 && Deviation(n * n, n * n) == 9
    ensures Penalty(g) == 2 * (n * (n - 2)) + 3 * ((n - 1) * (n - 1)) + 90
  {
    hide Deviation, RowPenalties, ColumnPenalties, Blocks, DarkModules;
  }

  lemma UniformDeviation(total: nat)
    requires total > 0
    ensures Deviation(0, total) == 9 && Deviation(total, total) == 9
  {
    CeilMeans(total * 10, total);
    CeilAtMost(total * 10, total, 10);
    var c := CeilDiv(total * 10, total);
    hide CeilDiv;
    if c < 10 {
      MulUpTo(c, 9, total);
    }
  }

  lemma MulUpTo(a: nat, b: nat, n: nat)
    requires a <= b
    ensures a * n <= b * n
  {
  }

  lemma {:induction false} UniformRows(g: Grid, n: nat, c: bool, m: nat)
    requires n >= 5 && m <= n && IsGrid(g, n) && forall x, y :: 0 <= x < n && 0 <= y < n ==> g[y][x] == c
    ensures RowPenalties(g, m) == m * (n - 2)
  {
    hide LinePenalty;
    if m > 0 {
      UniformRows(g, n, c, m - 1);
      assert g[m - 1] == Uniform(n, c);
      UniformLine(n, c);
      assert m * (n - 2) == (m - 1) * (n - 2) + (n - 2);
    }
  }

  lemma UniformBlocks(g: Grid, n: nat, c: bool)
    requires n > 0 && IsGrid(g, n) && forall x, y :: 0 <= x < n && 0 <= y < n ==> g[y][x] == c
    ensures |BlockCells(g)| == (n - 1) * (n - 1)
  {
    var side := Range(0, n - 1);
    assert BlockCells(g) == Product(side, side);
    ProductSize(side, side);
  }

  lemma UniformDark(g: Grid, n: nat, c: bool)
    requires IsGrid(g, n) && forall x, y :: 0 <= x < n && 0 <= y < n ==> g[y][x] == c
    ensures |DarkCells(g)| == if c then n * n else 0
  {
    var side := Range(0, n);
    if c {
      assert DarkCells(g) == Product(side, side);
      ProductSize(side, side);
    } else {
      assert DarkCells(g) == {};
    }
  }
}
