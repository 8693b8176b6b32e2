/** What a scanner looks for in a finished symbol (section 6.3 of ISO/IEC 18004:2015). */
module SymbolShape {
  import opened Numbers
  import opened Bits
  import opened Versions
  import opened FunctionPatterns
  import opened Zigzag
  import opened Colours
  import opened Runs
  import opened PenaltyRules
  import opened QrCode

  /** The centre of one of the three finder patterns. */
  predicate IsFinderCentre(ver: Version, cx: int, cy: int) {
    (cx, cy) in {(3, 3), (Size(ver) - 4, 3), (3, Size(ver) - 4)}
  }

  lemma CornersAreNotAligned(ver: Version, x: int, y: int)
    requires Within(ver, x, y) && IsCornerArea(ver, x, y)
    ensures !IsAlign(ver, x, y)
  {
    if ver > 1 {
      SpanPlaces(ver, x);
      SpanPlaces(ver, y);
      hide NearCentre;
      if LastSpan(ver, x) {
        assert y < 9;
      }
      if LastSpan(ver, y) {
        assert x < 9;
      }
    }
  }

  /** Finder patterns and their separators are drawn over by nothing. */
  lemma FinderModule(ver: Version, ecl: Ecl, mask: Mask, cx: int, cy: int, x: int, y: int)
    requires IsFinderCentre(ver, cx, cy) && Within(ver, x, y) && Abs(x - cx) <= 4 && Abs(y - cy) <= 4
    ensures IsFunction(ver, x, y)
    ensures FunctionDark(ver, ecl, mask, x, y) <==> Max(Abs(x - cx), Abs(y - cy)) in {0, 1, 3}
  {
    FinderIsClear(ver, cx, cy, x, y);
    CornersAreNotAligned(ver, x, y);
    FinderColour(ver, cx, cy, x, y);
    hide IsAlign, FormatDark, FormatIndex, VersionIndex, FinderOrTimingDark, IsCornerArea;
  }

  lemma FinderColour(ver: Version, cx: int, cy: int, x: int, y: int)
    requires IsFinderCentre(ver, cx, cy) && Within(ver, x, y) && Abs(x - cx) <= 4 && Abs(y - cy) <= 4
    ensures FinderOrTimingDark(ver, x, y) <==> Max(Abs(x - cx), Abs(y - cy)) in {0, 1, 3}
  {
    hide Max;
    if (cx, cy) == (3, 3) {
      assert NearFinder(x, y, 3, 3);
    } else if cx == 3 {
      assert NearFinder(x, y, 3, Size(ver) - 4);
    } else {
      assert NearFinder(x, y, Size(ver) - 4, 3);
    }
    MaxOf(Abs(x - cx), Abs(y - cy));
  }

  lemma MaxOf(a: nat, b: nat)
    requires a <= 4 && b <= 4
    ensures Max(a, b) != 2 && Max(a, b) != 4 <==> Max(a, b) in {0, 1, 3}
  {
  }

  lemma FinderIsClear(ver: Version, cx: int, cy: int, x: int, y: int)
    requires IsFinderCentre(ver, cx, cy) && Within(ver, x, y) && Abs(x - cx) <= 4 && Abs(y - cy) <= 4
    ensures FormatIndex(ver, x, y) < 0 && VersionIndex(ver, x, y) < 0 && IsCornerArea(ver, x, y)
  {
  }

  /**
   * Every finder pattern is three nested squares, dark, light and dark, of seven, five and three modules, with a light
   * separator around it, under every mask.
   */
  lemma FinderShows(ver: Version, ecl: Ecl, bits: seq<bool>, mask: Mask, cx: int, cy: int)
    requires IsFinderCentre(ver, cx, cy)
    ensures var g := TrialGrid(ver, ecl, bits, mask);
            forall x, y :: Within(ver, x, y) && Abs(x - cx) <= 4 && Abs(y - cy) <= 4 ==>
              (g[y][x] <==> (Abs(x - cx) <= 1 && Abs(y - cy) <= 1) || Max(Abs(x - cx), Abs(y - cy)) == 3)
  {
    hide IsFunction, FunctionDark, DataModule;
    var g := TrialGrid(ver, ecl, bits, mask);
    forall x, y | Within(ver, x, y) && Abs(x - cx) <= 4 && Abs(y - cy) <= 4
      ensures g[y][x] <==> (Abs(x - cx) <= 1 && Abs(y - cy) <= 1) || Max(Abs(x - cx), Abs(y - cy)) == 3
    {
      FinderModule(ver, ecl, mask, cx, cy, x, y);
    }
  }

  /** The light modules of the separator before and behind a finder pattern; at the border there are none. */
  function SeparatorBefore(c: int): nat {
    if c == 3 then 0 else 1
  }

  /** Rows and columns through the core of a finder pattern read 1:1:3:1:1 from dark to dark, in a light surround. */
  lemma FinderRatios(ver: Version, ecl: Ecl, bits: seq<bool>, mask: Mask, cx: int, cy: int, d: int)
    requires IsFinderCentre(ver, cx, cy) && -1 <= d <= 1
    ensures var g := TrialGrid(ver, ecl, bits, mask);
            && PatternEndsAt(g[cy + d], cx + 4, 1, SeparatorBefore(cx), 1 - SeparatorBefore(cx))
            && PatternEndsAt(Column(g, cx + d), cy + 4, 1, SeparatorBefore(cy), 1 - SeparatorBefore(cy))
  {
    FinderShows(ver, ecl, bits, mask, cx, cy);
    hide TrialGrid;
    var g := TrialGrid(ver, ecl, bits, mask);
    var row, column := g[cy + d], Column(g, cx + d);
    forall k | 0 <= k < Size(ver) && -4 <= k - cx <= 4
      ensures row[k] <==> k - cx in {-3, -1, 0, 1, 3}
    {
      assert Within(ver, k, cy + d);
    }
    forall k | 0 <= k < Size(ver) && -4 <= k - cy <= 4
      ensures column[k] <==> k - cy in {-3, -1, 0, 1, 3}
    {
      assert Within(ver, cx + d, k);
    }
    RatiosAt(row, cx, SeparatorBefore(cx), 1 - SeparatorBefore(cx));
    RatiosAt(column, cy, SeparatorBefore(cy), 1 - SeparatorBefore(cy));
  }

  lemma RatiosAt(line: Line, c: int, before: nat, after: nat)
    requires before <= 1 && after <= 1 && 0 <= c - 3 - before && c + 4 + after <= |line|
    requires forall k :: 0 <= k < |line| && -4 <= k - c <= 4 ==> (line[k] <==> k - c in {-3, -1, 0, 1, 3})
    ensures PatternEndsAt(line, c + 4, 1, before, after)
  {
  }

  // ---------------------------------------------------------------------------
  // Alignment and timing patterns
  // ---------------------------------------------------------------------------

  /** An alignment pattern is drawn over by nothing. */
  lemma AlignModule(ver: Version, ecl: Ecl, mask: Mask, i: nat, j: nat, x: int, y: int)
    requires ver > 1 && i < NumAlign(ver) && j < NumAlign(ver) && !Corner(NumAlign(ver), i, j)
    requires Near(ver, i, x) && Near(ver, j, y)
    ensures Within(ver, x, y) && IsFunction(ver, x, y)
    ensures FunctionDark(ver, ecl, mask, x, y) <==>
              Max(Abs(x - Centre(ver, i)), Abs(y - Centre(ver, j))) in {0, 2}
  {
    NearCentreIs(ver, i, x);
    NearCentreIs(ver, j, y);
    SpanPlaces(ver, x);
    SpanPlaces(ver, y);
    hide NearCentre, FormatDark;
    AlignPlaces(ver, i, x);
    AlignPlaces(ver, j, y);
    hide Centre;
  }

  /** Coordinates near a centre lie close to the near border, close to the far border, or well between them. */
  lemma AlignPlaces(ver: Version, i: nat, x: int)
    requires ver > 1 && i < NumAlign(ver) && Near(ver, i, x)
    ensures 4 <= x <= Size(ver) - 5
    ensures if i == 0 then x <= 8 else if i == NumAlign(ver) - 1 then x >= Size(ver) - 9 else 16 <= x < Size(ver) - 20
  {
    NearCentreIs(ver, i, x);
    SpanPlaces(ver, x);
    hide NearCentre;
  }

  /** Every alignment pattern is a dark square around a light one around a dark module, under every mask. */
  lemma AlignmentShows(ver: Version, ecl: Ecl, bits: seq<bool>, mask: Mask, i: nat, j: nat)
    requires ver > 1 && i < NumAlign(ver) && j < NumAlign(ver) && !Corner(NumAlign(ver), i, j)
    ensures var g, cx, cy := TrialGrid(ver, ecl, bits, mask), Centre(ver, i), Centre(ver, j);
            forall x, y :: Abs(x - cx) <= 2 && Abs(y - cy) <= 2 ==>
              Within(ver, x, y) && (g[y][x] <==> (x == cx && y == cy) || Max(Abs(x - cx), Abs(y - cy)) == 2)
  {
    hide IsFunction, FunctionDark, DataModule, Centre;
    var g, cx, cy := TrialGrid(ver, ecl, bits, mask), Centre(ver, i), Centre(ver, j);
    forall x, y | Abs(x - cx) <= 2 && Abs(y - cy) <= 2
      ensures Within(ver, x, y) && (g[y][x] <==> (x == cx && y == cy) || Max(Abs(x - cx), Abs(y - cy)) == 2)
    {
      AlignModule(ver, ecl, mask, i, j, x, y);
    }
  }

  /** Centres have even coordinates, so that alignment patterns fit the timing patterns. */
  lemma {:induction false} CentreIsEven(ver: Version, i: nat)
    requires i < NumAlign(ver)
    ensures Centre(ver, i) % 2 == 0
    decreases NumAlign(ver) - i
  {
    if 0 < i < NumAlign(ver) - 1 {
      CentreIsEven(ver, i + 1);
    }
  }

  lemma TimingBetweenFinders(ver: Version, k: int)
    requires 8 <= k < Size(ver) - 8
    ensures FinderOrTimingDark(ver, k, 6) <==> k % 2 == 0
    ensures FinderOrTimingDark(ver, 6, k) <==> k % 2 == 0
  {
  }

  lemma EvenDistance(k: int, c: int)
    requires c % 2 == 0 && Abs(k - c) <= 2
    ensures AlignDark(k - c, 0) <==> k % 2 == 0
    ensures AlignDark(0, k - c) <==> k % 2 == 0
  {
  }

  lemma TimingAligned(ver: Version, k: int)
    requires 8 <= k < Size(ver) - 8
    ensures BaseDark(ver, k, 6) <==> k % 2 == 0
    ensures BaseDark(ver, 6, k) <==> k % 2 == 0
  {
    TimingBetweenFinders(ver, k);
    var i := NearCentre(ver, k);
    if ver > 1 && i >= 0 {
      assert Centre(ver, 0) == 6;
      NearCentreIs(ver, 0, 6);
      hide NearCentre, Centre, NumAlign;
      CentreIsEven(ver, i);
      EvenDistance(k, Centre(ver, i));
    }
    hide FinderOrTimingDark, AlignDark, NearCentre, Centre, NumAlign, Corner;
  }

  lemma TimingModule(ver: Version, ecl: Ecl, mask: Mask, k: int)
    requires 8 <= k < Size(ver) - 8
    ensures IsFunction(ver, k, 6) && (FunctionDark(ver, ecl, mask, k, 6) <==> k % 2 == 0)
    ensures IsFunction(ver, 6, k) && (FunctionDark(ver, ecl, mask, 6, k) <==> k % 2 == 0)
  {
    TimingAligned(ver, k);
    hide BaseDark, IsAlign, FormatDark;
  }

  /** The timing patterns alternate between the finder patterns, also where alignment patterns lie on them. */
  lemma TimingShows(ver: Version, ecl: Ecl, bits: seq<bool>, mask: Mask, k: int)
    requires 8 <= k < Size(ver) - 8
    ensures var g := TrialGrid(ver, ecl, bits, mask);
            (g[6][k] <==> k % 2 == 0) && (g[k][6] <==> k % 2 == 0)
  {
    TimingModule(ver, ecl, mask, k);
    hide IsFunction, FunctionDark, DataModule;
    assert Within(ver, k, 6) && Within(ver, 6, k);
  }

  /** The module beside the bottom left finder pattern is always dark. */
  lemma DarkModuleShows(ver: Version, ecl: Ecl, bits: seq<bool>, mask: Mask)
    ensures TrialGrid(ver, ecl, bits, mask)[Size(ver) - 8][8]
  {
    assert Within(ver, 8, Size(ver) - 8);
    hide DataModule;
  }

  // ---------------------------------------------------------------------------
  // Where a scanner finds format and version
  // ---------------------------------------------------------------------------

  lemma FormatBitShows(ver: Version, ecl: Ecl, bits: seq<bool>, mask: Mask, i: nat)
    requires i < 15
    ensures var g, b := TrialGrid(ver, ecl, bits, mask), GetBit(FormatBits(ecl, mask), i);
            FormatModule(g, false, i) == b && FormatModule(g, true, i) == b
  {
    hide FormatBits, DataModule, IsFunction, FormatCell, FormatCopy, FormatIndex, VersionIndex, GetBit;
    FormatCellIs(ver, false, i);
    FormatCellIs(ver, true, i);
  }

  /**
   * The format word stands down column 8 and back along row 8 around the top left corner, past the timing patterns, and
   * again from the right end of row 8 inwards and down the end of column 8.
   */
  lemma FormatShows(ver: Version, ecl: Ecl, bits: seq<bool>, mask: Mask)
    ensures var g, f, n := TrialGrid(ver, ecl, bits, mask), FormatBits(ecl, mask), Size(ver);
            && (forall i :: 0 <= i < 6 ==> g[i][8] == GetBit(f, i))
            && g[7][8] == GetBit(f, 6) && g[8][8] == GetBit(f, 7) && g[8][7] == GetBit(f, 8)
            && (forall i :: 9 <= i < 15 ==> g[8][14 - i] == GetBit(f, i))
            && (forall i :: 0 <= i < 8 ==> g[8][n - 1 - i] == GetBit(f, i))
            && (forall i :: 8 <= i < 15 ==> g[n - 15 + i][8] == GetBit(f, i))
  {
    hide FormatBits, GetBit, TrialGrid;
    var g, f := TrialGrid(ver, ecl, bits, mask), FormatBits(ecl, mask);
    forall i | 0 <= i < 15
      ensures FormatModule(g, false, i) == GetBit(f, i) && FormatModule(g, true, i) == GetBit(f, i)
    {
      FormatBitShows(ver, ecl, bits, mask, i);
    }
  }

  /**
   * From version 7 on, the version word fills six rows of three modules left of the top right finder pattern, lowest
   * bit at the top left, and their mirror image above the bottom left one.
   */
  lemma VersionShows(ver: Version, ecl: Ecl, bits: seq<bool>, mask: Mask, r: nat, c: nat)
    requires ver >= 7 && r < 6 && c < 3
    ensures var g, n, b := TrialGrid(ver, ecl, bits, mask), Size(ver), GetBit(VersionBits(ver), 3 * r + c);
            g[r][n - 11 + c] == b && g[n - 11 + c][r] == b
  {
    assert (3 * r + c) % 3 == c && (3 * r + c) / 3 == r;
    VersionCellIs(ver, false, 3 * r + c);
    VersionCellIs(ver, true, 3 * r + c);
    hide VersionBits, DataModule, IsFunction, FormatIndex, VersionIndex, GetBit;
  }
}
