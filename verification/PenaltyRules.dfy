/** The penalty score of a masked symbol (section 7.8.3 of ISO/IEC 18004:2015). */
module PenaltyRules {
  import opened Numbers
  import opened Bits
  import opened Runs
  import opened Versions
  import opened FunctionPatterns
  import opened Zigzag

  // ---------------------------------------------------------------------------
  // One row or column
  // ---------------------------------------------------------------------------

  lemma HistoryPush(r: seq<nat>, m: nat)
    requires 0 < m <= |r|
    ensures History(r, m) == [r[m - 1]] + History(r, m - 1)[..6]
  {
  }

  lemma HistoryHead(r: seq<nat>, m: nat)
    requires m <= |r|
    ensures History(r, m)[0] == if m == 0 then 0 else r[m - 1]
  {
  }

  lemma WindowStep(r: seq<nat>, m: nat)
    requires 0 < m <= |r|
    ensures WindowSum(r, m) == WindowSum(r, m - 1) + (if m % 2 == 1 then CountPatterns(History(r, m)) else 0)
  {
  }

  /**
   * Puts a finished run in front of the history; the first run takes in the light border. If the history is that of the
   * first `m` runs of the bordered line, and the run is the next one, the result is the history of `m + 1` runs.
   */
  method AddHistory(runLen: nat, hist: seq<nat>, size: nat, ghost q: seq<nat>, ghost m: nat) returns (newHist: seq<nat>)
    requires m < |q| && hist == History(q, m) && (m > 0 ==> q[m - 1] > 0)
    requires q[m] == if m == 0 then runLen + size else runLen
    ensures newHist == History(q, m + 1)
  {
    var length := runLen;
    if hist[0] == 0 {
      length := length + size;
    }
    newHist := [length] + hist[..6];
    HistoryHead(q, m);
    HistoryPush(q, m + 1);
  }

  /** With a border in front, the first run is longer and the others are as before. */
  lemma FirstBordered(r: seq<nat>, size: nat)
    requires r != [] && forall k :: 1 <= k < |r| ==> r[k] > 0
    ensures var q, m := BorderFirst(r, size), |r| - 1;
            q[m] == (if m == 0 then r[m] + size else r[m]) && (m > 0 && (m > 1 || size > 0) ==> q[m - 1] > 0)
  {
  }

  /** When the line ends dark, the border behind it is a run of its own. */
  lemma TerminateDark(r: seq<nat>, size: nat)
    requires r != [] && |r| % 2 == 0 && size > 0 && r[|r| - 1] > 0
    ensures var q := BorderFirst(r, size);
            var s := BorderLast(q, size);
            && |s| == |r| + 1 && s[|r|] == size && s[|r| - 1] > 0 && History(s, |r|) == History(q, |r|)
            && WindowSum(s, |s|) == WindowSum(q, |r| - 1) + CountPatterns(History(s, |s|))
  {
    var q := BorderFirst(r, size);
    var s := q + [size];
    assert s[..|r|] == q[..|r|];
    hide History, WindowSum, CountPatterns, BorderFirst;
    WindowsPrefix(s, q, |r|);
    WindowStep(s, |s|);
    WindowStep(q, |r|);
  }

  /** When it ends light, the border lengthens the last run. */
  lemma TerminateLight(r: seq<nat>, size: nat)
    requires r != [] && |r| % 2 == 1 && size > 0 && (|r| >= 2 ==> r[|r| - 2] > 0)
    ensures var q := BorderFirst(r, size);
            var s, n := BorderLast(q, size), |r| - 1;
            && |s| == |r| && History(s, n) == History(q, n)
            && s[n] == (if n == 0 then r[n] + size + size else r[n] + size) && (n > 0 ==> s[n - 1] > 0)
            && WindowSum(s, |s|) == WindowSum(q, n) + CountPatterns(History(s, |s|))
  {
    var n := |r| - 1;
    BorderedLast(r, size);
    var q, s := BorderFirst(r, size), BorderLast(BorderFirst(r, size), size);
    hide History, WindowSum, CountPatterns, BorderFirst, BorderLast;
    WindowsPrefix(s, q, n);
    WindowStep(s, |s|);
    assert n > 0 ==> s[n - 1] == s[..n][n - 1] == q[..n][n - 1] == q[n - 1];
  }

  lemma BorderedLast(r: seq<nat>, size: nat)
    requires |r| % 2 == 1 && size > 0
    ensures var q, n := BorderFirst(r, size), |r| - 1;
            var s := BorderLast(q, size);
            && |s| == |r| && s[..n] == q[..n] && s[n] == (if n == 0 then r[n] + size + size else r[n] + size)
            && (n > 0 && r[n - 1] > 0 ==> q[n - 1] > 0)
  {
  }

  /** The border behind the last run is accounted for. */
  method TerminateAndCount(color: bool, runLen: nat, hist: seq<nat>, size: nat, ghost r: seq<nat>) returns (count: nat)
    requires r != [] && size > 0 && (forall k :: 1 <= k < |r| ==> r[k] > 0)
    requires color == (|r| % 2 == 0) && runLen == r[|r| - 1]
    requires hist == History(BorderFirst(r, size), |r| - 1)
    ensures var s := BorderLast(BorderFirst(r, size), size);
            WindowSum(s, |s|) == WindowSum(BorderFirst(r, size), |r| - 1) + count
  {
    hide CountPatterns, WindowSum, BorderFirst, BorderLast, History;
    var h, length := hist, runLen;
    ghost var q := BorderFirst(r, size);
    ghost var s, m := BorderLast(q, size), |r| - 1;
    if color {
      TerminateDark(r, size);
      FirstBordered(r, size);
      h := AddHistory(length, h, size, q, m);
      length, m := 0, |r|;
    } else {
      TerminateLight(r, size);
    }
    length := length + size;
    h := AddHistory(length, h, size, s, m);
    count := CountPatterns(h);
  }

  lemma {:induction false} WindowsPrefix(r: seq<nat>, s: seq<nat>, m: nat)
    requires m <= |r| && m <= |s| && r[..m] == s[..m]
    ensures History(r, m) == History(s, m)
    ensures WindowSum(r, m) == WindowSum(s, m)
  {
    forall t | 0 <= t < m
      ensures r[t] == s[t]
    {
      assert r[t] == r[..m][t] == s[..m][t];
    }
    if m > 0 {
      assert r[..m - 1] == r[..m][..m - 1] == s[..m - 1];
      WindowsPrefix(r, s, m - 1);
    }
  }

  /** What the scan has added up when the runs of the modules read so far are `r`. */
  function Scanned(r: seq<nat>, size: nat): nat
    requires r != []
  {
    RunCosts(r) + 40 * WindowSum(BorderFirst(r, size), |r| - 1)
  }

  lemma LongerRunScanned(r: seq<nat>, size: nat)
    requires r != []
    ensures var last := |r| - 1;
            var s := r[last := r[last] + 1];
            && Scanned(s, size) == Scanned(r, size) + (if s[last] == 5 then 3 else if s[last] > 5 then 1 else 0)
            && History(BorderFirst(s, size), last) == History(BorderFirst(r, size), last)
  {
    var last := |r| - 1;
    var s := r[last := r[last] + 1];
    assert s[..last] == r[..last];
    assert BorderFirst(s, size)[..last] == BorderFirst(r, size)[..last];
    WindowsPrefix(BorderFirst(s, size), BorderFirst(r, size), last);
  }

  lemma NewRunScanned(r: seq<nat>, size: nat)
    requires r != []
    ensures var h := History(BorderFirst(r, size), |r|);
            && Scanned(r + [1], size) == Scanned(r, size) + 40 * (if |r| % 2 == 1 then CountPatterns(h) else 0)
            && History(BorderFirst(r + [1], size), |r|) == h
  {
    var s := r + [1];
    assert s[..|r|] == r;
    assert BorderFirst(s, size)[..|r|] == BorderFirst(r, size)[..|r|];
    WindowsPrefix(BorderFirst(s, size), BorderFirst(r, size), |r|);
  }

  /** One more module lengthens the last run or starts a new one. */
  lemma RunsSnoc(line: Line, x: nat)
    requires x < |line|
    ensures var r, last := RunsOf(line[..x]), |RunsOf(line[..x])| - 1;
            RunsOf(line[..x + 1]) == if line[x] == (last % 2 == 1) then r[last := r[last] + 1] else r + [1]
    ensures forall k :: 1 <= k < |RunsOf(line[..x])| ==> RunsOf(line[..x])[k] > 0
  {
    assert line[..x + 1][..x] == line[..x];
    RunsAreRuns(line[..x]);
  }

  /** The one-pass scan of a line yields its penalty. */
  method ScanLine(line: Line) returns (result: nat)
    requires line != []
    ensures result == LinePenalty(line)
  {
    hide CountPatterns, WindowSum, RunCosts, BorderFirst, BorderLast, Scanned, PatternCount, RunsOf, History;
    var size := |line|;
    result := 0;
    var runColor := false;
    var runX := 0;
    var hist := [0, 0, 0, 0, 0, 0, 0];
    StartScan(size);
    assert line[..0] == [];
    for x := 0 to size
      invariant var r := RunsOf(line[..x]);
                runColor == ((|r| - 1) % 2 == 1) && runX == r[|r| - 1] && hist == History(BorderFirst(r, size), |r| - 1)
      invariant result == Scanned(RunsOf(line[..x]), size)
    {
      ghost var r := RunsOf(line[..x]);
      RunsSnoc(line, x);
      if line[x] == runColor {
        LongerRunScanned(r, size);
        runX := runX + 1;
        if runX == 5 {
          result := result + 3;
        } else if runX > 5 {
          result := result + 1;
        }
      } else {
        NewRunScanned(r, size);
        FirstBordered(r, size);
        hist := AddHistory(runX, hist, size, BorderFirst(r, size), |r| - 1);
        if !runColor {
          result := result + CountPatterns(hist) * 40;
        }
        runColor := line[x];
        runX := 1;
      }
    }
    assert line[..size] == line;
    RunsSnoc(line + [true], size);
    assert (line + [true])[..size] == line;
    var count := TerminateAndCount(runColor, runX, hist, size, RunsOf(line));
    result := result + count * 40;
    BorderedRuns(line);
    ScannedIs(RunsOf(line), size);
  }

  lemma StartScan(size: nat)
    ensures RunsOf([]) == [0] && Scanned([0], size) == 0
    ensures History(BorderFirst([0], size), 0) == [0, 0, 0, 0, 0, 0, 0]
  {
  }

  lemma ScannedIs(r: seq<nat>, size: nat)
    requires r != []
    ensures Scanned(r, size) == RunCosts(r) + 40 * WindowSum(BorderFirst(r, size), |r| - 1)
  {
  }

  // ---------------------------------------------------------------------------
  // The whole symbol
  // ---------------------------------------------------------------------------

  function GridOf(a: array2<bool>): (g: Grid)
    reads a
    ensures |g| == a.Length0
    ensures forall y :: 0 <= y < a.Length0 ==> |g[y]| == a.Length1
    ensures forall y, x :: 0 <= y < a.Length0 && 0 <= x < a.Length1 ==> g[y][x] == a[y, x]
  {
    seq(a.Length0, y requires 0 <= y < a.Length0 reads a =>
      seq(a.Length1, x requires 0 <= x < a.Length1 reads a => a[y, x]))
  }

  function Column(g: Grid, x: nat): (line: Line)
    requires IsGrid(g, |g|) && x < |g|
    ensures |line| == |g|
  {
    seq(|g|, y requires 0 <= y < |g| => g[y][x])
  }

  ghost function RowPenalties(g: Grid, n: nat): nat
    requires n <= |g|
  {
    if n == 0 then 0 else RowPenalties(g, n - 1) + LinePenalty(g[n - 1])
  }

  ghost function ColumnPenalties(g: Grid, n: nat): nat
    requires IsGrid(g, |g|) && n <= |g|
  {
    if n == 0 then 0 else ColumnPenalties(g, n - 1) + LinePenalty(Column(g, n - 1))
  }

  /** Four modules of one colour, with (x, y) at the top left. */
  predicate IsBlock(g: Grid, x: nat, y: nat)
    requires IsGrid(g, |g|) && x + 1 < |g| && y + 1 < |g|
  {
    g[y][x] == g[y][x + 1] == g[y + 1][x] == g[y + 1][x + 1]
  }

  function BlocksInRow(g: Grid, y: nat, n: nat): nat
    requires IsGrid(g, |g|) && y + 1 < |g| && n < |g|
  {
    if n == 0 then 0 else BlocksInRow(g, y, n - 1) + (if IsBlock(g, n - 1, y) then 1 else 0)
  }

  function Blocks(g: Grid, n: nat): nat
    requires IsGrid(g, |g|) && n < |g|
  {
    if n == 0 then 0 else Blocks(g, n - 1) + BlocksInRow(g, n - 1, |g| - 1)
  }

  function DarkInRow(line: Line, n: nat): nat
    requires n <= |line|
  {
    if n == 0 then 0 else DarkInRow(line, n - 1) + BitVal(line[n - 1])
  }

  function DarkModules(g: Grid, n: nat): nat
    requires n <= |g|
  {
    if n == 0 then 0 else DarkModules(g, n - 1) + DarkInRow(g[n - 1], |g[n - 1]|)
  }

  function Deviation(dark: nat, total: nat): int
    requires total > 0
  {
    CeilDiv(Abs(dark * 20 - total * 10), total) - 1
  }

  ghost function Penalty(g: Grid): int
    requires IsGrid(g, |g|) && g != []
  {
    RowPenalties(g, |g|) + ColumnPenalties(g, |g|) + 3 * Blocks(g, |g| - 1) +
    10 * Deviation(DarkModules(g, |g|), |g| * |g|)
  }

  /**
   * For an odd number of modules the deviation is the least k from 0 to 9 such that the share of dark modules lies
   * between 45 - 5k and 55 + 5k percent.
   */
  lemma DeviationMeans(dark: nat, total: nat)
    requires total % 2 == 1 && dark <= total
    ensures var k := Deviation(dark, total);
            && 0 <= k <= 9
            && 45 * total - 5 * (k * total) <= 100 * dark <= 55 * total + 5 * (k * total)
            && !(50 * total - 5 * (k * total) <= 100 * dark <= 50 * total + 5 * (k * total))
  {
    var d := Abs(dark * 20 - total * 10);
    assert d == 10 * Abs(2 * dark - total) > 0;
    CeilMeans(d, total);
    CeilAtMost(d, total, 10);
    var k := Deviation(dark, total);
    hide CeilDiv;
    assert (k + 1) * total == k * total + total;
  }

  lemma {:induction false} DarkInRowBound(line: Line, n: nat)
    requires n <= |line|
    ensures DarkInRow(line, n) <= n
  {
    if n > 0 {
      DarkInRowBound(line, n - 1);
    }
  }

  lemma {:induction false} DarkModulesBound(g: Grid, n: nat)
    requires IsGrid(g, |g|) && n <= |g|
    ensures DarkModules(g, n) <= n * |g|
  {
    hide DarkInRow;
    if n > 0 {
      DarkModulesBound(g, n - 1);
      DarkInRowBound(g[n - 1], |g[n - 1]|);
      assert n * |g| == (n - 1) * |g| + |g|;
    }
  }

  lemma OddSquare(m: nat)
    requires m % 2 == 1
    ensures m * m % 2 == 1
  {
    var h := m / 2;
    assert m * m == 2 * (2 * h * h + 2 * h) + 1;
  }

  /**
   * A symbol of any version has an odd number of modules. Its deviation is the least k from 0 to 9 such that the
   * share of dark modules lies between 45 - 5k and 55 + 5k percent.
   */
  lemma SymbolDeviation(g: Grid, ver: Version)
    requires IsGrid(g, Size(ver))
    ensures var dark, total := DarkModules(g, |g|), |g| * |g|;
            var k := Deviation(dark, total);
            && 0 <= k <= 9
            && 45 * total - 5 * (k * total) <= 100 * dark <= 55 * total + 5 * (k * total)
            && !(50 * total - 5 * (k * total) <= 100 * dark <= 50 * total + 5 * (k * total))
  {
    hide DarkModules, Deviation;
    OddSquare(|g|);
    DarkModulesBound(g, |g|);
    DeviationMeans(DarkModules(g, |g|), |g| * |g|);
  }

  lemma CeilAtMost(a: nat, b: nat, c: nat)
    requires b > 0 && a <= c * b
    ensures CeilDiv(a, b) <= c
  {
    assert (c + 1) * b == c * b + b;
    DivBelow(a + b - 1, b, c + 1);
  }

  lemma CeilMeans(a: nat, b: nat)
    requires b > 0 && a > 0
    ensures var c := CeilDiv(a, b);
            c >= 1 && (c - 1) * b < a <= c * b
  {
    var c := CeilDiv(a, b);
    assert a + b - 1 == c * b + (a + b - 1) % b;
    DivAtLeast(a + b - 1, b, 1);
    assert (c - 1) * b == c * b - b;
  }

  method LineScore(modules: array2<bool>) returns (result: nat)
    requires modules.Length0 == modules.Length1 > 0
    ensures var g := GridOf(modules); result == RowPenalties(g, |g|) + ColumnPenalties(g, |g|)
  {
    hide LinePenalty;
    ghost var g := GridOf(modules);
    var size := modules.Length0;
    result := 0;
    for y := 0 to size
      invariant result == RowPenalties(g, y)
    {
      var line := seq(size, x requires 0 <= x < size reads modules => modules[y, x]);
      assert line == g[y];
      var p := ScanLine(line);
      result := result + p;
    }
    for x := 0 to size
      invariant result == RowPenalties(g, size) + ColumnPenalties(g, x)
    {
      var line := seq(size, y requires 0 <= y < size reads modules => modules[y, x]);
      assert line == Column(g, x);
      var p := ScanLine(line);
      result := result + p;
    }
  }

  method BlockScore(modules: array2<bool>) returns (result: nat)
    requires modules.Length0 == modules.Length1 > 0
    ensures var g := GridOf(modules); result == 3 * Blocks(g, |g| - 1)
  {
    ghost var g := GridOf(modules);
    var size := modules.Length0;
    result := 0;
    for y := 0 to size - 1
      invariant result == 3 * Blocks(g, y)
    {
      for x := 0 to size - 1
        invariant result == 3 * Blocks(g, y) + 3 * BlocksInRow(g, y, x)
      {
        var c := modules[y, x];
        if c == modules[y, x + 1] && c == modules[y + 1, x] && c == modules[y + 1, x + 1] {
          result := result + 3;
        }
      }
    }
  }

  method CountDark(modules: array2<bool>) returns (dark: nat)
    requires modules.Length0 == modules.Length1
    ensures var g := GridOf(modules); dark == DarkModules(g, |g|)
  {
    ghost var g := GridOf(modules);
    dark := 0;
    for y := 0 to modules.Length0
      invariant dark == DarkModules(g, y)
    {
      for x := 0 to modules.Length1
        invariant dark == DarkModules(g, y) + DarkInRow(g[y], x)
      {
        if modules[y, x] {
          dark := dark + 1;
        }
      }
    }
  }

  method PenaltyScore(modules: array2<bool>) returns (result: int)
    requires modules.Length0 == modules.Length1 > 0
    ensures result == Penalty(GridOf(modules))
  {
    hide LinePenalty, Deviation, RowPenalties, ColumnPenalties, Blocks, DarkModules;
    var lines := LineScore(modules);
    var blocks := BlockScore(modules);
    result := lines + blocks;
    var dark := CountDark(modules);
    var total := modules.Length0 * modules.Length0;
    var k := CeilDiv(Abs(dark * 20 - total * 10), total) - 1;
    DeviationIs(dark, total);
    result := result + k * 10;
  }

  lemma DeviationIs(dark: nat, total: nat)
    requires total > 0
    ensures Deviation(dark, total) == CeilDiv(Abs(dark * 20 - total * 10), total) - 1
  {
  }
}
