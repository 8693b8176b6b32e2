/** Runs of equal modules in a row or column, and what they cost (section 7.8.3 of ISO/IEC 18004:2015). */
module Runs {

  type Line = seq<bool>

  // ---------------------------------------------------------------------------
  // Maximal runs
  // ---------------------------------------------------------------------------

  /** The lengths of the maximal runs, alternately light and dark; the first, light one may be empty. */
  function RunsOf(line: Line): (r: seq<nat>)
    ensures r != []
  {
    if line == [] then [0]
    else
      var n := |line| - 1;
      var r := RunsOf(line[..n]);
      var last := |r| - 1;
      if line[n] == (last % 2 == 1) then r[last := r[last] + 1] else r + [1]
  }

  /** Where run `k` ends. */
  function End(r: seq<nat>, k: int): nat
    requires -1 <= k < |r|
    decreases k + 1
  {
    if k == -1 then 0 else End(r, k - 1) + r[k]
  }

  /** `r` lists the maximal runs of `line`: neighbours differ in colour and only the first may be empty. */
  ghost predicate AreRuns(r: seq<nat>, line: Line) {
    && r != [] && End(r, |r| - 1) == |line|
    && (forall k :: 1 <= k < |r| ==> r[k] > 0)
    && (forall k, i :: 0 <= k < |r| && End(r, k - 1) <= i < End(r, k) && i < |line| ==> line[i] == (k % 2 == 1))
  }

  lemma {:induction false} EndPrefix(r: seq<nat>, r': seq<nat>, k: int)
    requires -1 <= k < |r| && k < |r'| && r[..k + 1] == r'[..k + 1]
    ensures End(r, k) == End(r', k)
    decreases k + 1
  {
    if k >= 0 {
      assert r[..k] == r[..k + 1][..k] == r'[..k];
      assert r[k] == r[..k + 1][k] == r'[k];
      EndPrefix(r, r', k - 1);
    }
  }

  lemma {:induction false} EndGrows(r: seq<nat>, j: int, k: int)
    requires -1 <= j <= k < |r|
    ensures End(r, j) <= End(r, k)
    decreases k
  {
    if j < k {
      EndGrows(r, j, k - 1);
    }
  }

  /** One more module of the same colour lengthens the last run. */
  lemma LongerRun(r: seq<nat>, line: Line, b: bool)
    requires AreRuns(r, line) && b == ((|r| - 1) % 2 == 1)
    ensures AreRuns(r[|r| - 1 := r[|r| - 1] + 1], line + [b])
  {
    var last := |r| - 1;
    var s := r[last := r[last] + 1];
    forall k | -1 <= k < last
      ensures End(s, k) == End(r, k)
    {
      EndPrefix(s, r, k);
    }
    assert End(s, last) == |line| + 1;
    forall k, i | 0 <= k < |s| && End(s, k - 1) <= i < End(s, k) && i < |line| + 1
      ensures (line + [b])[i] == (k % 2 == 1)
    {
      if k < last {
        EndGrows(r, k, last);
      }
    }
  }

  /** One more module of the other colour starts a new run. */
  lemma NewRun(r: seq<nat>, line: Line, b: bool)
    requires AreRuns(r, line) && b != ((|r| - 1) % 2 == 1)
    ensures AreRuns(r + [1], line + [b])
  {
    var s := r + [1];
    forall k | -1 <= k < |r|
      ensures End(s, k) == End(r, k)
    {
      EndPrefix(s, r, k);
    }
    forall k, i | 0 <= k < |s| && End(s, k - 1) <= i < End(s, k) && i < |line| + 1
      ensures (line + [b])[i] == (k % 2 == 1)
    {
      if k < |r| {
        EndGrows(r, k, |r| - 1);
      }
    }
  }

  lemma {:induction false} RunsAreRuns(line: Line)
    ensures AreRuns(RunsOf(line), line)
  {
    hide AreRuns;
    if line == [] {
      NoRuns();
    } else {
      var n := |line| - 1;
      var r := RunsOf(line[..n]);
      RunsAreRuns(line[..n]);
      assert RunsOf(line) == if line[n] == ((|r| - 1) % 2 == 1) then r[|r| - 1 := r[|r| - 1] + 1] else r + [1];
      hide RunsOf;
      assert line[..n] + [line[n]] == line;
      if line[n] == ((|r| - 1) % 2 == 1) {
        LongerRun(r, line[..n], line[n]);
      } else {
        NewRun(r, line[..n], line[n]);
      }
    }
  }

  lemma NoRuns()
    ensures AreRuns([0], [])
  {
  }

  /** A run list and a position in the line determine the run. */
  lemma {:induction false} RunAt(r: seq<nat>, line: Line, k: int, i: nat) returns (j: nat)
    requires AreRuns(r, line) && -1 <= k < |r| && i < End(r, k)
    ensures j <= k && End(r, j - 1) <= i < End(r, j)
    decreases k
  {
    if i < End(r, k - 1) {
      j := RunAt(r, line, k - 1, i);
    } else {
      j := k;
    }
  }

  // ---------------------------------------------------------------------------
  // Finder-like patterns
  // ---------------------------------------------------------------------------

  /** All modules from `lo` up to `hi` exist and have the colour. */
  ghost predicate Stretch(line: Line, lo: int, hi: int, dark: bool) {
    0 <= lo <= hi <= |line| && forall i :: lo <= i < hi ==> line[i] == dark
  }

  /** Dark, light, dark, light, dark in the ratio 1:1:3:1:1 ending at `e`, with light margins. */
  ghost predicate PatternEndsAt(line: Line, e: int, n: nat, before: nat, after: nat) {
    && n > 0
    && Stretch(line, e - 7 * n - before, e - 7 * n, false)
    && Stretch(line, e - 7 * n, e - 6 * n, true)
    && Stretch(line, e - 6 * n, e - 5 * n, false)
    && Stretch(line, e - 5 * n, e - 2 * n, true)
    && Stretch(line, e - 2 * n, e - n, false)
    && Stretch(line, e - n, e, true)
    && Stretch(line, e, e + after, false)
  }

  ghost predicate WidePatternBefore(line: Line, e: int) {
    exists n: nat :: PatternEndsAt(line, e, n, 4 * n, n)
  }

  ghost predicate WidePatternAfter(line: Line, e: int) {
    exists n: nat :: PatternEndsAt(line, e, n, n, 4 * n)
  }

  /** A pattern counts once for each side on which its margin is four modules wide. */
  ghost function PatternsAt(line: Line, e: int): nat {
    (if WidePatternBefore(line, e) then 1 else 0) + (if WidePatternAfter(line, e) then 1 else 0)
  }

  /** The patterns that end at 1, ..., `m`. */
  ghost function PatternCount(line: Line, m: nat): nat {
    if m == 0 then 0 else PatternCount(line, m - 1) + PatternsAt(line, m)
  }

  // ---------------------------------------------------------------------------
  // The run history
  // ---------------------------------------------------------------------------

  /** The last seven of the first `m` runs, latest first, zeros where there are none. */
  function History(r: seq<nat>, m: nat): (h: seq<nat>)
    requires m <= |r|
    ensures |h| == 7
  {
    seq(7, t => if 0 <= t < m then r[m - 1 - t] else 0)
  }

  function CountPatterns(h: seq<nat>): nat
    requires |h| == 7
  {
    var n := h[1];
    var core := n > 0 && h[2] == n && h[3] == n * 3 && h[4] == n && h[5] == n;
    (if core && h[0] >= n * 4 && h[6] >= n then 1 else 0) + (if core && h[6] >= n * 4 && h[0] >= n then 1 else 0)
  }

  /** The patterns counted each time one of the first `m` runs ends and is light. */
  function WindowSum(r: seq<nat>, m: nat): nat
    requires m <= |r|
  {
    if m == 0 then 0
    else WindowSum(r, m - 1) + (if m % 2 == 1 then CountPatterns(History(r, m)) else 0)
  }

  // ---------------------------------------------------------------------------
  // Runs and stretches
  // ---------------------------------------------------------------------------

  lemma RunIsStretch(r: seq<nat>, line: Line, k: nat, lo: int, hi: int)
    requires AreRuns(r, line) && k < |r| && End(r, k - 1) <= lo <= hi <= End(r, k)
    ensures Stretch(line, lo, hi, k % 2 == 1)
  {
    EndGrows(r, k, |r| - 1);
  }

  /** A stretch that ends where run `k` ends, in its colour, is no longer than the run. */
  lemma StretchInRun(r: seq<nat>, line: Line, k: nat, len: nat)
    requires AreRuns(r, line) && k < |r| && Stretch(line, End(r, k) - len, End(r, k), k % 2 == 1)
    ensures len <= r[k]
  {
    if len > r[k] {
      var i := End(r, k - 1) - 1;
      assert line[i] == (k % 2 == 1);
      RunIsStretch(r, line, k - 1, i, i + 1);
    }
  }

  /** The module after a run that does not end the line has the other colour. */
  lemma AfterRun(r: seq<nat>, line: Line, k: nat)
    requires AreRuns(r, line) && k < |r| && End(r, k) < |line|
    ensures k + 1 < |r| && line[End(r, k)] == (k % 2 == 0)
  {
    assert k < |r| - 1;
    var i := End(r, k);
    assert End(r, k + 1) == i + r[k + 1];
    RunIsStretch(r, line, k + 1, i, i + 1);
    assert line[i] == ((k + 1) % 2 == 1);
  }

  /** A stretch that starts where run `k` starts, in its colour, is no longer than the run. */
  lemma StretchFromRun(r: seq<nat>, line: Line, k: nat, len: nat)
    requires AreRuns(r, line) && k < |r| && Stretch(line, End(r, k - 1), End(r, k - 1) + len, k % 2 == 1)
    ensures len <= r[k]
  {
    hide AreRuns;
    assert End(r, k) == End(r, k - 1) + r[k];
    if len > r[k] {
      assert line[End(r, k)] == (k % 2 == 1);
      AfterRun(r, line, k);
    }
  }

  /** A stretch that ends where run `k` ends, between modules of the other colour, is the run. */
  lemma StretchIsRun(r: seq<nat>, line: Line, k: nat, lo: int)
    requires AreRuns(r, line) && k < |r| && Stretch(line, lo, End(r, k), k % 2 == 1)
    requires Stretch(line, lo - 1, lo, k % 2 == 0)
    ensures k > 0 && End(r, k - 1) == lo
  {
    StretchInRun(r, line, k, End(r, k) - lo);
    assert line[lo - 1] == (k % 2 == 0);
    if End(r, k - 1) < lo {
      RunIsStretch(r, line, k, lo - 1, lo);
    }
  }

  /** Five runs of the right lengths between wide enough light runs are a pattern, and nothing else is. */
  lemma PatternIsFiveRuns(r: seq<nat>, line: Line, k: nat, n: nat, before: nat, after: nat)
    requires AreRuns(r, line) && k + 1 < |r| && k % 2 == 1 && before > 0 && after > 0
    ensures PatternEndsAt(line, End(r, k), n, before, after) <==>
            && k >= 5 && n > 0 && r[k] == n && r[k - 1] == n && r[k - 2] == 3 * n && r[k - 3] == n && r[k - 4] == n
            && r[k - 5] >= before && r[k + 1] >= after
  {
    if PatternEndsAt(line, End(r, k), n, before, after) {
      PatternHasRuns(r, line, k, n, before, after);
    }
    if && k >= 5 && n > 0 && r[k] == n && r[k - 1] == n && r[k - 2] == 3 * n && r[k - 3] == n && r[k - 4] == n
       && r[k - 5] >= before && r[k + 1] >= after {
      RunsMakePattern(r, line, k, n, before, after);
    }
  }

  lemma SubStretch(line: Line, lo: int, hi: int, lo': int, hi': int, dark: bool)
    requires Stretch(line, lo, hi, dark) && lo <= lo' <= hi' <= hi
    ensures Stretch(line, lo', hi', dark)
  {
  }

  /** The run that ends where a stretch ends is the stretch, if something else comes before. */
  lemma StretchLength(r: seq<nat>, line: Line, k: nat, len: nat, margin: nat)
    requires AreRuns(r, line) && k < |r| && margin > 0
    requires Stretch(line, End(r, k) - len, End(r, k), k % 2 == 1)
    requires Stretch(line, End(r, k) - len - margin, End(r, k) - len, k % 2 == 0)
    ensures k > 0 && r[k] == len && End(r, k - 1) == End(r, k) - len
  {
    hide AreRuns;
    var lo := End(r, k) - len;
    SubStretch(line, lo - margin, lo, lo - 1, lo, k % 2 == 0);
    hide Stretch;
    StretchIsRun(r, line, k, lo);
  }

  lemma PatternHasRuns(r: seq<nat>, line: Line, k: nat, n: nat, before: nat, after: nat)
    requires AreRuns(r, line) && k + 1 < |r| && k % 2 == 1 && before > 0 && after > 0
    requires PatternEndsAt(line, End(r, k), n, before, after)
    ensures && k >= 5 && r[k] == n && r[k - 1] == n && r[k - 2] == 3 * n && r[k - 3] == n && r[k - 4] == n
            && r[k - 5] >= before && r[k + 1] >= after
  {
    hide AreRuns, Stretch, End;
    StretchLength(r, line, k, n, n);
    StretchLength(r, line, k - 1, n, 3 * n);
    StretchLength(r, line, k - 2, 3 * n, n);
    StretchLength(r, line, k - 3, n, n);
    StretchLength(r, line, k - 4, n, before);
    StretchInRun(r, line, k - 5, before);
    StretchFromRun(r, line, k + 1, after);
  }

  lemma RunsMakePattern(r: seq<nat>, line: Line, k: nat, n: nat, before: nat, after: nat)
    requires AreRuns(r, line) && 5 <= k && k + 1 < |r| && k % 2 == 1 && n > 0
    requires r[k] == n && r[k - 1] == n && r[k - 2] == 3 * n && r[k - 3] == n && r[k - 4] == n
    requires r[k - 5] >= before && r[k + 1] >= after
    ensures PatternEndsAt(line, End(r, k), n, before, after)
  {
    hide AreRuns, Stretch;
    var e := End(r, k);
    RunIsStretch(r, line, k + 1, e, e + after);
    RunIsStretch(r, line, k, e - n, e);
    RunIsStretch(r, line, k - 1, e - 2 * n, e - n);
    RunIsStretch(r, line, k - 2, e - 5 * n, e - 2 * n);
    RunIsStretch(r, line, k - 3, e - 6 * n, e - 5 * n);
    RunIsStretch(r, line, k - 4, e - 7 * n, e - 6 * n);
    RunIsStretch(r, line, k - 5, e - 7 * n - before, e - 7 * n);
  }

  /** At the end of a dark run the history counts exactly the patterns that end there. */
  lemma HistoryCounts(r: seq<nat>, line: Line, k: nat)
    requires AreRuns(r, line) && k + 1 < |r| && k % 2 == 1
    ensures PatternsAt(line, End(r, k)) == CountPatterns(History(r, k + 2))
  {
    hide AreRuns, PatternEndsAt;
    var e, n, h := End(r, k), r[k], History(r, k + 2);
    assert h[0] == r[k + 1] && h[1] == n && h[2] == r[k - 1];
    assert k >= 3 ==> h[3] == r[k - 2] && h[4] == r[k - 3];
    assert k >= 5 ==> h[5] == r[k - 4] && h[6] == r[k - 5];
    assert k < 5 ==> h[6] == 0;
    forall m: nat
      ensures PatternEndsAt(line, e, m, 4 * m, m) ==> m == n
      ensures PatternEndsAt(line, e, m, m, 4 * m) ==> m == n
    {
      if m > 0 {
        PatternIsFiveRuns(r, line, k, m, 4 * m, m);
        PatternIsFiveRuns(r, line, k, m, m, 4 * m);
      } else {
        EmptyPattern(line, e);
      }
    }
    if n > 0 {
      PatternIsFiveRuns(r, line, k, n, 4 * n, n);
      PatternIsFiveRuns(r, line, k, n, n, 4 * n);
    } else {
      EmptyPattern(line, e);
    }
    assert WidePatternBefore(line, e) <==> PatternEndsAt(line, e, n, 4 * n, n);
    assert WidePatternAfter(line, e) <==> PatternEndsAt(line, e, n, n, 4 * n);
  }

  lemma EmptyPattern(line: Line, e: int)
    ensures !PatternEndsAt(line, e, 0, 0, 0)
  {
  }

  lemma PatternTip(line: Line, e: int)
    ensures PatternsAt(line, e) > 0 ==> 0 < e < |line| && line[e - 1] && !line[e]
  {
  }

  /** Nothing ends inside a run or at the end of a light one. */
  lemma NoPatternInside(r: seq<nat>, line: Line, k: nat, e: nat)
    requires AreRuns(r, line) && k < |r| && End(r, k - 1) < e <= End(r, k) <= |line|
    requires k % 2 == 0 || e < End(r, k)
    ensures PatternsAt(line, e) == 0
  {
    PatternTip(line, e);
    hide PatternsAt;
    RunIsStretch(r, line, k, e - 1, e);
    assert line[e - 1] == (k % 2 == 1);
    if e < End(r, k) {
      RunIsStretch(r, line, k, e, e + 1);
      assert line[e] == (k % 2 == 1);
    }
  }

  lemma {:induction false} CountInside(r: seq<nat>, line: Line, k: nat, e: nat)
    requires AreRuns(r, line) && k < |r| && End(r, k - 1) <= e <= End(r, k) <= |line|
    requires k % 2 == 0 || e < End(r, k)
    ensures PatternCount(line, e) == PatternCount(line, End(r, k - 1))
    decreases e
  {
    hide AreRuns, PatternsAt;
    if e > End(r, k - 1) {
      NoPatternInside(r, line, k, e);
      CountInside(r, line, k, e - 1);
    }
  }

  /** Counting at the run ends finds every pattern, once. */
  lemma {:induction false} WindowsCount(r: seq<nat>, line: Line, k: int)
    requires AreRuns(r, line) && -1 <= k < |r| && (k % 2 == 1 ==> k + 1 < |r|)
    ensures k % 2 == 0 ==> PatternCount(line, End(r, k)) == WindowSum(r, k + 1)
    ensures k % 2 == 1 ==> PatternCount(line, End(r, k)) == WindowSum(r, k + 2)
    decreases k
  {
    hide PatternsAt, CountPatterns;
    if k == -1 {
      FirstWindow(r);
    } else {
      WindowsCount(r, line, k - 1);
      EndGrows(r, k, |r| - 1);
      if k % 2 == 0 {
        CountInside(r, line, k, End(r, k));
      } else {
        CountInside(r, line, k, End(r, k) - 1);
        HistoryCounts(r, line, k);
      }
    }
  }

  lemma FirstWindow(r: seq<nat>)
    requires r != []
    ensures WindowSum(r, 1) == 0
  {
  }

  // ---------------------------------------------------------------------------
  // The penalty of one line
  // ---------------------------------------------------------------------------

  function RunCost(n: nat): nat {
    if n >= 5 then n - 2 else 0
  }

  /** Each maximal run of five or more modules costs its length less two. */
  function RunCosts(r: seq<nat>): nat {
    if r == [] then 0 else RunCosts(r[..|r| - 1]) + RunCost(r[|r| - 1])
  }

  function Light(n: nat): (line: Line)
    ensures |line| == n
  {
    seq(n, _ => false)
  }

  /** The line with `n` light modules before and behind it. */
  function WithBorder(line: Line, n: nat): (b: Line)
    ensures |b| == |line| + 2 * n
  {
    Light(n) + line + Light(n)
  }

  /** Beyond the borders everything is light; how much of that is looked at makes no difference (`AnyBorder`). */
  function Bordered(line: Line): Line {
    WithBorder(line, |line|)
  }

  ghost function LinePenalty(line: Line): nat {
    RunCosts(RunsOf(line)) + 40 * PatternCount(Bordered(line), 3 * |line|)
  }

  /** The run list with a light border of `n` modules in front. */
  function BorderFirst(r: seq<nat>, n: nat): (s: seq<nat>)
    requires r != []
    ensures |s| == |r|
  {
    r[0 := r[0] + n]
  }

  function BorderLast(r: seq<nat>, n: nat): (s: seq<nat>)
    requires r != []
    ensures |s| % 2 == 1
  {
    if |r| % 2 == 1 then r[|r| - 1 := r[|r| - 1] + n] else r + [n]
  }

  lemma BorderFirstRuns(r: seq<nat>, line: Line, n: nat)
    requires AreRuns(r, line)
    ensures AreRuns(BorderFirst(r, n), Light(n) + line)
  {
    var s := BorderFirst(r, n);
    forall k | 0 <= k < |r|
      ensures End(s, k) == End(r, k) + n
    {
      ShiftedEnd(r, n, k);
    }
    forall k, i | 0 <= k < |s| && End(s, k - 1) <= i < End(s, k) && i < n + |line|
      ensures (Light(n) + line)[i] == (k % 2 == 1)
    {
      if k > 0 {
        assert End(r, k - 1) <= i - n;
      }
    }
  }

  lemma {:induction false} ShiftedEnd(r: seq<nat>, n: nat, k: nat)
    requires k < |r|
    ensures End(BorderFirst(r, n), k) == End(r, k) + n
  {
    if k > 0 {
      ShiftedEnd(r, n, k - 1);
    }
  }

  lemma {:induction false} BorderLastRuns(r: seq<nat>, line: Line, n: nat)
    requires AreRuns(r, line) && n > 0
    ensures AreRuns(BorderLast(r, n), line + Light(n))
    decreases n
  {
    assert r != [];
    hide AreRuns;
    if n == 1 {
      assert Light(1) == [false];
      if |r| % 2 == 1 {
        LongerRun(r, line, false);
      } else {
        NewRun(r, line, false);
      }
    } else {
      BorderLastRuns(r, line, n - 1);
      var s := BorderLast(r, n - 1);
      LongerRun(s, line + Light(n - 1), false);
      assert line + Light(n - 1) + [false] == line + Light(n);
      assert s[|s| - 1 := s[|s| - 1] + 1] == BorderLast(r, n);
    }
  }

  /** The runs of the bordered line, seen from the runs of the line. */
  lemma BorderedRuns(line: Line)
    requires line != []
    ensures var r := BorderLast(BorderFirst(RunsOf(line), |line|), |line|);
            PatternCount(Bordered(line), 3 * |line|) == WindowSum(r, |r|)
  {
    hide AreRuns, WindowSum, PatternCount, RunsOf, Light;
    var r, n := RunsOf(line), |line|;
    RunsAreRuns(line);
    BorderFirstRuns(r, line, n);
    BorderLastRuns(BorderFirst(r, n), Light(n) + line, n);
    var s := BorderLast(BorderFirst(r, n), n);
    hide BorderFirst, BorderLast;
    LastEnd(s, Bordered(line));
    WindowsCount(s, Bordered(line), |s| - 1);
  }

  lemma LastEnd(r: seq<nat>, line: Line)
    requires AreRuns(r, line)
    ensures End(r, |r| - 1) == |line|
  {
  }

  // ---------------------------------------------------------------------------
  // The width of the border
  // ---------------------------------------------------------------------------

  lemma WithBorderAt(line: Line, n: nat, i: nat)
    requires i < |line| + 2 * n
    ensures WithBorder(line, n)[i] == (n <= i < n + |line| && line[i - n])
  {
  }

  /** A stretch of a line stays one when the border grows by `d`, and was one before. */
  lemma StretchShifts(line: Line, n: nat, d: nat, lo: int, hi: int, dark: bool)
    requires 0 <= lo <= hi <= |line| + 2 * n
    ensures Stretch(WithBorder(line, n + d), lo + d, hi + d, dark) <==> Stretch(WithBorder(line, n), lo, hi, dark)
  {
    var narrow, wide := WithBorder(line, n), WithBorder(line, n + d);
    forall i | lo <= i < hi
      ensures wide[i + d] == narrow[i]
    {
      WithBorderAt(line, n, i);
      WithBorderAt(line, n + d, i + d);
    }
    hide WithBorder;
    assert forall j :: lo + d <= j < hi + d ==> wide[j] == narrow[j - d];
  }

  /** Dark modules lie in the line, so a pattern is no longer than the line. */
  lemma PatternFits(line: Line, n: nat, e: int, m: nat, before: nat, after: nat)
    requires PatternEndsAt(WithBorder(line, n), e, m, before, after)
    ensures n <= e - 7 * m && e <= n + |line|
  {
    var wide := WithBorder(line, n);
    assert wide[e - 7 * m] && wide[e - 1];
    WithBorderAt(line, n, e - 7 * m);
    WithBorderAt(line, n, e - 1);
  }

  lemma PatternRange(line: Line, e: int, m: nat, before: nat, after: nat)
    requires PatternEndsAt(line, e, m, before, after)
    ensures 0 <= e - 7 * m - before && e + after <= |line|
  {
  }

  lemma PatternShiftsWithin(line: Line, n: nat, d: nat, e: int, m: nat, before: nat, after: nat)
    requires 0 <= e - 7 * m - before && e + after <= |line| + 2 * n
    ensures PatternEndsAt(WithBorder(line, n + d), e + d, m, before, after) <==>
            PatternEndsAt(WithBorder(line, n), e, m, before, after)
  {
    hide Stretch, WithBorder;
    StretchShifts(line, n, d, e - 7 * m - before, e - 7 * m, false);
    StretchShifts(line, n, d, e - 7 * m, e - 6 * m, true);
    StretchShifts(line, n, d, e - 6 * m, e - 5 * m, false);
    StretchShifts(line, n, d, e - 5 * m, e - 2 * m, true);
    StretchShifts(line, n, d, e - 2 * m, e - m, false);
    StretchShifts(line, n, d, e - m, e, true);
    StretchShifts(line, n, d, e, e + after, false);
  }

  lemma PatternShifts(line: Line, n: nat, d: nat, e: int, m: nat, before: nat, after: nat)
    requires 7 * n >= 4 * |line| && before <= 4 * m && after <= 4 * m
    ensures PatternEndsAt(WithBorder(line, n + d), e + d, m, before, after) <==>
            PatternEndsAt(WithBorder(line, n), e, m, before, after)
  {
    hide PatternEndsAt, WithBorder;
    var wide, narrow := WithBorder(line, n + d), WithBorder(line, n);
    if PatternEndsAt(wide, e + d, m, before, after) {
      PatternFits(line, n + d, e + d, m, before, after);
      PatternShiftsWithin(line, n, d, e, m, before, after);
    }
    if PatternEndsAt(narrow, e, m, before, after) {
      PatternRange(narrow, e, m, before, after);
      PatternShiftsWithin(line, n, d, e, m, before, after);
    }
  }

  lemma PatternsShift(line: Line, n: nat, d: nat, e: int)
    requires 7 * n >= 4 * |line|
    ensures PatternsAt(WithBorder(line, n + d), e + d) == PatternsAt(WithBorder(line, n), e)
  {
    var wide, narrow := WithBorder(line, n + d), WithBorder(line, n);
    hide PatternEndsAt, WithBorder;
    if WidePatternBefore(wide, e + d) {
      var m: nat :| PatternEndsAt(wide, e + d, m, 4 * m, m);
      PatternShifts(line, n, d, e, m, 4 * m, m);
    }
    if WidePatternBefore(narrow, e) {
      var m: nat :| PatternEndsAt(narrow, e, m, 4 * m, m);
      PatternShifts(line, n, d, e, m, 4 * m, m);
    }
    if WidePatternAfter(wide, e + d) {
      var m: nat :| PatternEndsAt(wide, e + d, m, m, 4 * m);
      PatternShifts(line, n, d, e, m, m, 4 * m);
    }
    if WidePatternAfter(narrow, e) {
      var m: nat :| PatternEndsAt(narrow, e, m, m, 4 * m);
      PatternShifts(line, n, d, e, m, m, 4 * m);
    }
  }

  lemma NoPatternInBorder(line: Line, n: nat, e: nat)
    requires e <= n || n + |line| < e
    ensures PatternsAt(WithBorder(line, n), e) == 0
  {
    PatternTip(WithBorder(line, n), e);
    if 0 < e <= |line| + 2 * n {
      WithBorderAt(line, n, e - 1);
    }
    hide PatternsAt, WithBorder;
  }

  /** Up to `m` modules behind the line, a border that is wider by `d` shows the same patterns. */
  lemma {:induction false} CountShifts(line: Line, n: nat, d: nat, m: nat)
    requires 7 * n >= 4 * |line|
    ensures PatternCount(WithBorder(line, n + d), m + d) == PatternCount(WithBorder(line, n), m)
    decreases d + m
  {
    hide PatternsAt, WithBorder;
    if m > 0 {
      CountShifts(line, n, d, m - 1);
      PatternsShift(line, n, d, m);
    } else if d > 0 {
      NothingInBorder(line, n + d, d);
    }
  }

  lemma {:induction false} NothingInBorder(line: Line, n: nat, m: nat)
    requires m <= n
    ensures PatternCount(WithBorder(line, n), m) == 0
  {
    hide PatternsAt, WithBorder;
    if m > 0 {
      NothingInBorder(line, n, m - 1);
      NoPatternInBorder(line, n, m);
    }
  }

  lemma {:induction false} NothingBehind(line: Line, n: nat, m: nat)
    requires n + |line| <= m
    ensures PatternCount(WithBorder(line, n), m) == PatternCount(WithBorder(line, n), n + |line|)
    decreases m
  {
    hide PatternsAt, WithBorder;
    if m > n + |line| {
      NothingBehind(line, n, m - 1);
      NoPatternInBorder(line, n, m);
    }
  }

  /** From four sevenths of the line on, every width of the light surround gives the same number of patterns. */
  lemma AnyBorder(line: Line, n: nat, d: nat)
    requires 7 * n >= 4 * |line|
    ensures PatternCount(WithBorder(line, n + d), |line| + 2 * (n + d)) ==
            PatternCount(WithBorder(line, n), |line| + 2 * n)
  {
    hide PatternCount, WithBorder;
    CountShifts(line, n, d, |line| + 2 * n);
    NothingBehind(line, n + d, |line| + 2 * n + d);
    NothingBehind(line, n + d, |line| + 2 * (n + d));
  }

  /** The penalty of a line counts its patterns in a light surround of any width from that of the line on. */
  lemma PenaltyWithAnyBorder(line: Line, n: nat)
    requires n >= |line|
    ensures LinePenalty(line) == RunCosts(RunsOf(line)) + 40 * PatternCount(WithBorder(line, n), |line| + 2 * n)
  {
    hide PatternCount, WithBorder, RunCosts, RunsOf;
    AnyBorder(line, |line|, n - |line|);
  }
}
