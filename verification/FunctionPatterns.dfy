/**
 * Which modules of a symbol are function patterns, and how many are left for the codewords (sections 6.3 and 7.9
 * and table 1 of ISO/IEC 18004:2015).
 */
module FunctionPatterns {
  import opened Numbers
  import opened Cells
  import opened Versions

  function Size(ver: Version): nat {
    ver * 4 + 17
  }

  predicate Within(ver: Version, x: int, y: int) {
    0 <= x < Size(ver) && 0 <= y < Size(ver)
  }

  // ---------------------------------------------------------------------------
  // Alignment patterns
  // ---------------------------------------------------------------------------

  function Step(ver: Version): nat {
    if ver == 32 then 26 else CeilDiv(ver * 4 + 4, NumAlign(ver) * 2 - 2) * 2
  }

  /** The coordinate of alignment centre `i`: the first is 6, the others go back from the far side. */
  function Centre(ver: Version, i: nat): int
    requires i < NumAlign(ver)
    decreases NumAlign(ver) - i
  {
    if i == 0 then 6
    else if i == NumAlign(ver) - 1 then Size(ver) - 7
    else Centre(ver, i + 1) - Step(ver)
  }

  predicate Near(ver: Version, i: nat, x: int)
    requires i < NumAlign(ver)
  {
    Abs(x - Centre(ver, i)) <= 2
  }

  /** The greatest centre below `n` that has `x` within two modules, or -1. */
  function NearBelow(ver: Version, n: nat, x: int): (i: int)
    requires n <= NumAlign(ver)
    ensures -1 <= i < n
    ensures i >= 0 ==> Near(ver, i, x)
  {
    if n == 0 then -1
    else if Near(ver, n - 1, x) then n - 1
    else NearBelow(ver, n - 1, x)
  }

  function NearCentre(ver: Version, x: int): (i: int)
    ensures -1 <= i < NumAlign(ver)
    ensures i >= 0 ==> Near(ver, i, x)
  {
    NearBelow(ver, NumAlign(ver), x)
  }

  /** Three of the corners hold finder patterns instead. */
  predicate Corner(n: int, i: int, j: int) {
    (i == 0 && j == 0) || (i == 0 && j == n - 1) || (i == n - 1 && j == 0)
  }

  predicate IsAlign(ver: Version, x: int, y: int) {
    var i, j := NearCentre(ver, x), NearCentre(ver, y);
    ver > 1 && i >= 0 && j >= 0 && !Corner(NumAlign(ver), i, j)
  }

  lemma SpacingFor(ver: Version)
    requires ver > 1
    ensures 12 <= Step(ver) && (NumAlign(ver) - 2) * Step(ver) <= Size(ver) - 7 - 18
    ensures ver >= 7 ==> Step(ver) >= 16
  {
    SpacingForCount(ver, NumAlign(ver), Step(ver));
  }

  lemma SpacingForCount(ver: int, n: nat, step: int)
    requires 1 < ver <= 40 && n == ver / 7 + 2
    requires step == if ver == 32 then 26 else (ver * 4 + 4 + (n * 2 - 2) - 1) / (n * 2 - 2) * 2
    ensures 12 <= step && (n - 2) * step <= ver * 4 - 8 && (ver >= 7 ==> step >= 16)
  {
    if n == 2 {
    } else if n == 3 {
    } else if n == 4 {
    } else if n == 5 {
    } else if n == 6 {
    } else {
    }
  }

  lemma {:induction false} CentreAt(ver: Version, i: nat)
    requires 0 < i < NumAlign(ver)
    ensures Centre(ver, i) == Size(ver) - 7 - (NumAlign(ver) - 1 - i) * Step(ver)
    decreases NumAlign(ver) - i
  {
    hide Step;
    if i < NumAlign(ver) - 1 {
      CentreAt(ver, i + 1);
      assert (NumAlign(ver) - 1 - i) * Step(ver) == (NumAlign(ver) - 2 - i) * Step(ver) + Step(ver);
    }
  }

  /** Neighbouring centres are at least twelve modules apart. */
  lemma CentresApart(ver: Version, i: nat)
    requires ver > 1 && i + 1 < NumAlign(ver)
    ensures Centre(ver, i) + 12 <= Centre(ver, i + 1)
    ensures ver >= 7 && i > 0 ==> Centre(ver, i) + 16 <= Centre(ver, i + 1)
  {
    SpacingFor(ver);
    hide Step;
    if i == 0 {
      CentreAt(ver, 1);
    }
  }

  /**
   * The first centre lies on the timing pattern, the last seven modules from the far side, and the others are evenly
   * spaced with the least even distance that covers the way. Version 32 has 26 instead.
   */
  lemma CentresAreEven(ver: Version, i: nat)
    requires ver > 1 && 0 < i && i + 1 < NumAlign(ver)
    ensures var n, d := ver / 7 + 1, Centre(ver, i + 1) - Centre(ver, i);
            && Centre(ver, 0) == 6 && Centre(ver, n) == 4 * ver + 10 && d % 2 == 0
            && if ver == 32 then d == 26 else n * (d - 2) < Centre(ver, n) - Centre(ver, 0) <= n * d
  {
    var n := ver / 7 + 1;
    assert Centre(ver, 0) == 6 && Centre(ver, n) == Size(ver) - 7;
    assert Centre(ver, i) == Centre(ver, i + 1) - Step(ver);
    hide Centre;
    StepCovers(4 * ver + 4, n);
    assert n * 2 == NumAlign(ver) * 2 - 2;
    hide CeilDiv, NumAlign;
  }

  lemma StepCovers(way: nat, n: nat)
    requires n > 0
    ensures var d := CeilDiv(way, 2 * n) * 2; n * (d - 2) < way <= n * d
  {
    var c := CeilDiv(way, 2 * n);
    assert way + 2 * n - 1 == c * (2 * n) + (way + 2 * n - 1) % (2 * n);
    assert c * (2 * n) == n * (c * 2);
    assert n * (c * 2 - 2) == n * (c * 2) - 2 * n;
  }

  lemma {:induction false} CentresOrdered(ver: Version, i: nat, j: nat)
    requires ver > 1 && i < j < NumAlign(ver)
    ensures Centre(ver, i) + 12 <= Centre(ver, j)
    decreases j
  {
    hide Centre;
    CentresApart(ver, j - 1);
    if i < j - 1 {
      CentresOrdered(ver, i, j - 1);
    }
  }

  lemma {:induction false} NearBelowFinds(ver: Version, n: nat, i: nat, x: int)
    requires ver > 1 && i < n <= NumAlign(ver) && Near(ver, i, x)
    ensures NearBelow(ver, n, x) == i
  {
    if i < n - 1 {
      CentresOrdered(ver, i, n - 1);
      NearBelowFinds(ver, n - 1, i, x);
    }
  }

  /** `NearCentre` is the only centre within two modules. */
  lemma NearCentreIs(ver: Version, i: nat, x: int)
    requires ver > 1 && i < NumAlign(ver)
    ensures NearCentre(ver, x) == i <==> Near(ver, i, x)
  {
    if Near(ver, i, x) {
      NearBelowFinds(ver, NumAlign(ver), i, x);
    }
  }

  // ---------------------------------------------------------------------------
  // All function patterns
  // ---------------------------------------------------------------------------

  /** Finder patterns, separators, format information and the dark module. */
  predicate IsCornerArea(ver: Version, x: int, y: int) {
    var size := Size(ver);
    (x < 9 && y < 9) || (x >= size - 8 && y < 9) || (x < 9 && y >= size - 8)
  }

  predicate IsTiming(x: int, y: int) {
    x == 6 || y == 6
  }

  predicate IsVersionArea(ver: Version, x: int, y: int) {
    var size := Size(ver);
    ver >= 7 && ((size - 11 <= x < size - 8 && y < 6) || (x < 6 && size - 11 <= y < size - 8))
  }

  predicate IsFunction(ver: Version, x: int, y: int) {
    IsCornerArea(ver, x, y) || IsTiming(x, y) || IsVersionArea(ver, x, y) || IsAlign(ver, x, y)
  }

  // ---------------------------------------------------------------------------
  // Counting
  // ---------------------------------------------------------------------------

  /** The coordinates within two modules of one centre. */
  ghost function Span(ver: Version, i: nat): set<int>
    requires i < NumAlign(ver)
  {
    Range(Centre(ver, i) - 2, Centre(ver, i) + 3)
  }

  /** The coordinates within two modules of the centres `lo` to `hi - 1`. */
  ghost function Spans(ver: Version, lo: nat, hi: nat): set<int>
    requires lo <= hi <= NumAlign(ver)
    decreases hi
  {
    if lo == hi then {} else Spans(ver, lo, hi - 1) + Span(ver, hi - 1)
  }

  lemma InSpan(ver: Version, i: nat, x: int)
    requires i < NumAlign(ver)
    ensures x in Span(ver, i) <==> Near(ver, i, x)
  {
    hide Centre;
  }

  lemma {:induction false} InSpans(ver: Version, lo: nat, hi: nat, x: int)
    requires ver > 1 && lo <= hi <= NumAlign(ver)
    ensures x in Spans(ver, lo, hi) <==> lo <= NearCentre(ver, x) < hi
    decreases hi
  {
    hide Span, NearCentre, Near, NumAlign;
    if lo < hi {
      InSpans(ver, lo, hi - 1, x);
      NearCentreIs(ver, hi - 1, x);
      InSpan(ver, hi - 1, x);
    }
  }

  /** The span of a centre has no coordinate in common with those before it. */
  lemma LastSpanApart(ver: Version, lo: nat, hi: nat)
    requires ver > 1 && lo < hi <= NumAlign(ver)
    ensures Apart(Spans(ver, lo, hi - 1), Span(ver, hi - 1))
  {
    hide Span, NearCentre, Spans, Near, NumAlign;
    var head, span := Spans(ver, lo, hi - 1), Span(ver, hi - 1);
    forall x | x in head
      ensures x !in span
    {
      InSpans(ver, lo, hi - 1, x);
      NearCentreIs(ver, hi - 1, x);
      InSpan(ver, hi - 1, x);
    }
  }

  lemma SpanSize(ver: Version, i: nat)
    requires i < NumAlign(ver)
    ensures |Span(ver, i)| == 5
  {
    hide Centre;
  }

  lemma {:induction false} SpansCount(ver: Version, lo: nat, hi: nat)
    requires ver > 1 && lo <= hi <= NumAlign(ver)
    ensures |Spans(ver, lo, hi)| == 5 * (hi - lo)
    decreases hi
  {
    hide Span, Apart, NumAlign;
    if lo < hi {
      SpansCount(ver, lo, hi - 1);
      LastSpanApart(ver, lo, hi);
      UnionSize(Spans(ver, lo, hi - 1), Span(ver, hi - 1));
      SpanSize(ver, hi - 1);
    }
  }

  /** The off-line part of the first centre's span, the spans in between, and the last span. */
  predicate FirstSpan(ver: Version, x: int) {
    NearCentre(ver, x) == 0 && x != 6
  }

  predicate MiddleSpan(ver: Version, x: int) {
    0 < NearCentre(ver, x) < NumAlign(ver) - 1
  }

  predicate LastSpan(ver: Version, x: int) {
    NearCentre(ver, x) == NumAlign(ver) - 1
  }

  lemma SpanPlaces(ver: Version, x: int)
    requires ver > 1
    ensures NearCentre(ver, x) == 0 <==> 4 <= x <= 8
    ensures LastSpan(ver, x) <==> Size(ver) - 9 <= x <= Size(ver) - 5
    ensures MiddleSpan(ver, x) ==> 16 <= x < Size(ver) - 20
  {
    var n, i := NumAlign(ver), NearCentre(ver, x);
    NearCentreIs(ver, 0, x);
    NearCentreIs(ver, n - 1, x);
    if MiddleSpan(ver, x) {
      CentresOrdered(ver, 0, i);
      CentresApart(ver, n - 2);
      if i < n - 2 {
        CentresOrdered(ver, i, n - 2);
      }
    }
  }

  /** The alignment modules that are not on a timing line. */
  predicate IsAlignOffLine(ver: Version, x: int, y: int) {
    ver > 1 &&
    if MiddleSpan(ver, x) then FirstSpan(ver, y) || MiddleSpan(ver, y) || LastSpan(ver, y)
    else if MiddleSpan(ver, y) then FirstSpan(ver, x) || LastSpan(ver, x)
    else LastSpan(ver, x) && LastSpan(ver, y)
  }

  predicate IsTimingStretch(ver: Version, x: int, y: int) {
    (x == 6 && 9 <= y < Size(ver) - 8) || (y == 6 && 9 <= x < Size(ver) - 8)
  }

  /** The function patterns are four areas that do not meet. */
  lemma FourAreas(ver: Version, x: int, y: int)
    requires Within(ver, x, y)
    ensures IsFunction(ver, x, y) <==>
            || IsCornerArea(ver, x, y) || IsTimingStretch(ver, x, y)
            || IsVersionArea(ver, x, y) || IsAlignOffLine(ver, x, y)
    ensures !(IsCornerArea(ver, x, y) && IsTimingStretch(ver, x, y))
    ensures !(IsVersionArea(ver, x, y) && (IsCornerArea(ver, x, y) || IsTimingStretch(ver, x, y)))
    ensures IsAlignOffLine(ver, x, y) ==>
            !IsCornerArea(ver, x, y) && !IsTimingStretch(ver, x, y) && !IsVersionArea(ver, x, y)
  {
    if ver > 1 {
      SpanPlaces(ver, x);
      SpanPlaces(ver, y);
      hide NearCentre, NumAlign;
    }
  }

  ghost function AllCells(ver: Version): set<Cell> {
    Product(Range(0, Size(ver)), Range(0, Size(ver)))
  }

  ghost function FunctionCells(ver: Version): set<Cell> {
    set c | c in AllCells(ver) && IsFunction(ver, c.0, c.1)
  }

  ghost function DataCells(ver: Version): set<Cell> {
    set c | c in AllCells(ver) && !IsFunction(ver, c.0, c.1)
  }

  ghost function CornerCells(ver: Version): set<Cell> {
    var left, right := Range(0, 9), Range(Size(ver) - 8, Size(ver));
    Product(left, left + right) + Product(right, left)
  }

  ghost function TimingCells(ver: Version): set<Cell> {
    var middle := Range(9, Size(ver) - 8);
    Product({6}, middle) + Product(middle, {6})
  }

  ghost function VersionCells(ver: Version): set<Cell> {
    var far, near := Range(Size(ver) - 11, Size(ver) - 8), Range(0, 6);
    if ver < 7 then {} else Product(far, near) + Product(near, far)
  }

  ghost function AlignCells(ver: Version): set<Cell> {
    var n := NumAlign(ver);
    var first, middle, last := Spans(ver, 0, 1) - {6}, Spans(ver, 1, n - 1), Spans(ver, n - 1, n);
    if ver == 1 then {}
    else Product(middle, first + middle + last) + Product(first + last, middle) + Product(last, last)
  }

  lemma InAll(ver: Version, x: int, y: int)
    ensures (x, y) in AllCells(ver) <==> Within(ver, x, y)
  {
    InProduct(Range(0, Size(ver)), Range(0, Size(ver)), x, y);
  }

  lemma InCorner(ver: Version, x: int, y: int)
    ensures (x, y) in CornerCells(ver) <==> Within(ver, x, y) && IsCornerArea(ver, x, y)
  {
    hide Product, Range;
    var left, right := Range(0, 9), Range(Size(ver) - 8, Size(ver));
    InProduct(left, left + right, x, y);
    InProduct(right, left, x, y);
  }

  lemma InTiming(ver: Version, x: int, y: int)
    ensures (x, y) in TimingCells(ver) <==> Within(ver, x, y) && IsTimingStretch(ver, x, y)
  {
    hide Product;
    var middle := Range(9, Size(ver) - 8);
    InProduct({6}, middle, x, y);
    InProduct(middle, {6}, x, y);
  }

  lemma InVersion(ver: Version, x: int, y: int)
    ensures (x, y) in VersionCells(ver) <==> Within(ver, x, y) && IsVersionArea(ver, x, y)
  {
    hide Product;
    if ver >= 7 {
      var far, near := Range(Size(ver) - 11, Size(ver) - 8), Range(0, 6);
      InProduct(far, near, x, y);
      InProduct(near, far, x, y);
    }
  }

  lemma SpanSets(ver: Version, x: int)
    requires ver > 1
    ensures x in Spans(ver, 0, 1) - {6} <==> FirstSpan(ver, x)
    ensures x in Spans(ver, 1, NumAlign(ver) - 1) <==> MiddleSpan(ver, x)
    ensures x in Spans(ver, NumAlign(ver) - 1, NumAlign(ver)) <==> LastSpan(ver, x)
  {
    hide Spans, NearCentre;
    InSpans(ver, 0, 1, x);
    InSpans(ver, 1, NumAlign(ver) - 1, x);
    InSpans(ver, NumAlign(ver) - 1, NumAlign(ver), x);
  }

  lemma InAlign(ver: Version, x: int, y: int)
    ensures (x, y) in AlignCells(ver) <==> Within(ver, x, y) && IsAlignOffLine(ver, x, y)
  {
    hide Product, Spans, NearCentre, FirstSpan, MiddleSpan, LastSpan;
    if ver > 1 {
      var n := NumAlign(ver);
      var first, middle, last := Spans(ver, 0, 1) - {6}, Spans(ver, 1, n - 1), Spans(ver, n - 1, n);
      SpanSets(ver, x);
      SpanSets(ver, y);
      SpansDiffer(ver, x);
      SpansDiffer(ver, y);
      AlignWithin(ver, x, y);
      InProduct(middle, first + middle + last, x, y);
      InProduct(first + last, middle, x, y);
      InProduct(last, last, x, y);
    }
  }

  lemma AlignWithin(ver: Version, x: int, y: int)
    ensures IsAlignOffLine(ver, x, y) ==> Within(ver, x, y)
  {
    if ver > 1 {
      SpanPlaces(ver, x);
      SpanPlaces(ver, y);
      hide NearCentre, NumAlign;
    }
  }

  lemma SpansDiffer(ver: Version, x: int)
    requires ver > 1
    ensures !(FirstSpan(ver, x) && MiddleSpan(ver, x)) && !(FirstSpan(ver, x) && LastSpan(ver, x))
    ensures !(MiddleSpan(ver, x) && LastSpan(ver, x))
  {
  }

  lemma CornerCount(ver: Version)
    ensures |CornerCells(ver)| == 225
  {
    hide Product;
    var left, right := Range(0, 9), Range(Size(ver) - 8, Size(ver));
    UnionSize(left, right);
    ProductUnion(left, left + right, right, left);
  }

  lemma TimingCount(ver: Version)
    ensures |TimingCells(ver)| == 2 * (Size(ver) - 17)
  {
    hide Product, Range;
    var middle := Range(9, Size(ver) - 8);
    assert |{6}| == 1;
    ProductUnion({6}, middle, middle, {6});
  }

  lemma VersionCount(ver: Version)
    ensures |VersionCells(ver)| == if ver >= 7 then 36 else 0
  {
    hide Product;
    if ver >= 7 {
      var far, near := Range(Size(ver) - 11, Size(ver) - 8), Range(0, 6);
      ProductUnion(far, near, near, far);
    }
  }

  lemma SpansApart(ver: Version, i: nat, j: nat, k: nat, l: nat)
    requires ver > 1 && i <= j <= k <= l <= NumAlign(ver)
    ensures Apart(Spans(ver, i, j), Spans(ver, k, l))
  {
    hide Spans, NearCentre;
    forall x | x in Spans(ver, i, j)
      ensures x !in Spans(ver, k, l)
    {
      InSpans(ver, i, j, x);
      InSpans(ver, k, l, x);
    }
  }

  lemma SpanSizes(ver: Version)
    requires ver > 1
    ensures var n := NumAlign(ver);
            && n >= 2 && |Spans(ver, 0, 1) - {6}| == 4
            && |Spans(ver, 1, n - 1)| == 5 * (n - 2) && |Spans(ver, n - 1, n)| == 5
  {
    hide Spans, NearCentre;
    var n := NumAlign(ver);
    SpansCount(ver, 0, 1);
    SpansCount(ver, 1, n - 1);
    SpansCount(ver, n - 1, n);
    SpanPlaces(ver, 6);
    InSpans(ver, 0, 1, 6);
  }

  lemma SpansAllApart(ver: Version)
    requires ver > 1
    ensures var n := NumAlign(ver);
            && Apart(Spans(ver, 0, 1) - {6}, Spans(ver, 1, n - 1))
            && Apart(Spans(ver, 0, 1) - {6}, Spans(ver, n - 1, n))
            && Apart(Spans(ver, 1, n - 1), Spans(ver, n - 1, n))
  {
    hide Spans;
    var n := NumAlign(ver);
    SpansApart(ver, 0, 1, 1, n - 1);
    SpansApart(ver, 0, 1, n - 1, n);
    SpansApart(ver, 1, n - 1, n - 1, n);
  }

  lemma AlignCount(ver: Version)
    ensures |AlignCells(ver)| == if ver > 1 then (25 * NumAlign(ver) - 10) * NumAlign(ver) - 55 else 0
  {
    hide Product, Spans, Apart, NumAlign;
    if ver > 1 {
      var n := NumAlign(ver);
      SpanSizes(ver);
      SpansAllApart(ver);
      AlignSize(Spans(ver, 0, 1) - {6}, Spans(ver, 1, n - 1), Spans(ver, n - 1, n), n);
    }
  }

  lemma AlignSize(first: set<int>, middle: set<int>, last: set<int>, n: nat)
    requires Apart(first, middle) && Apart(first, last) && Apart(middle, last)
    requires n >= 2 && |first| == 4 && |middle| == 5 * (n - 2) && |last| == 5
    ensures |Product(middle, first + middle + last) + Product(first + last, middle) + Product(last, last)| ==
            (25 * n - 10) * n - 55
  {
    hide Product;
    UnionSize(first, last);
    UnionSize(first, middle);
    UnionSize(first + middle, last);
    ProductUnion(middle, first + middle + last, first + last, middle);
    ProductSize(last, last);
    ProductsApart(middle, first + middle + last, last, last);
    ProductsApart(first + last, middle, last, last);
    UnionSize(Product(middle, first + middle + last) + Product(first + last, middle), Product(last, last));
    AlignArithmetic(n - 2);
  }

  lemma AlignArithmetic(m: nat)
    ensures 5 * m * (5 * m + 9) + 9 * (5 * m) + 25 == (25 * (m + 2) - 10) * (m + 2) - 55
  {
  }

  lemma InAreas(ver: Version, x: int, y: int)
    ensures (x, y) in AllCells(ver) <==> Within(ver, x, y)
    ensures (x, y) in FunctionCells(ver) <==>
            || (x, y) in CornerCells(ver) || (x, y) in TimingCells(ver)
            || (x, y) in VersionCells(ver) || (x, y) in AlignCells(ver)
    ensures !((x, y) in CornerCells(ver) && (x, y) in TimingCells(ver))
    ensures !((x, y) in VersionCells(ver) && ((x, y) in CornerCells(ver) || (x, y) in TimingCells(ver)))
    ensures (x, y) in AlignCells(ver) ==>
            (x, y) !in CornerCells(ver) && (x, y) !in TimingCells(ver) && (x, y) !in VersionCells(ver)
  {
    hide IsCornerArea, IsTimingStretch, IsVersionArea, IsAlignOffLine, IsFunction;
    hide CornerCells, TimingCells, VersionCells, AlignCells, AllCells;
    InAll(ver, x, y);
    InCorner(ver, x, y);
    InTiming(ver, x, y);
    InVersion(ver, x, y);
    InAlign(ver, x, y);
    if Within(ver, x, y) {
      FourAreas(ver, x, y);
    }
  }

  lemma FunctionCellCount(ver: Version)
    ensures |FunctionCells(ver)| == |CornerCells(ver)| + |TimingCells(ver)| + |VersionCells(ver)| + |AlignCells(ver)|
  {
    hide FunctionCells, CornerCells, TimingCells, VersionCells, AlignCells;
    var c, t, v, a := CornerCells(ver), TimingCells(ver), VersionCells(ver), AlignCells(ver);
    forall p: Cell
      ensures p in FunctionCells(ver) <==> p in c || p in t || p in v || p in a
      ensures !(p in c && p in t) && !(p in v && (p in c || p in t)) && !(p in a && (p in c || p in t || p in v))
    {
      InAreas(ver, p.0, p.1);
    }
    assert FunctionCells(ver) == c + t + v + a;
    UnionSize(c, t);
    UnionSize(c + t, v);
    UnionSize(c + t + v, a);
  }

  lemma CellsSplit(ver: Version)
    ensures Apart(DataCells(ver), FunctionCells(ver)) && AllCells(ver) == DataCells(ver) + FunctionCells(ver)
  {
    hide IsFunction, AllCells;
  }

  lemma AllCellsCount(ver: Version)
    ensures |AllCells(ver)| == Size(ver) * Size(ver)
  {
    hide Product, Range;
    var side := Range(0, Size(ver));
    ProductSize(side, side);
  }

  lemma DataAndFunctionCells(ver: Version)
    ensures |DataCells(ver)| + |FunctionCells(ver)| == Size(ver) * Size(ver)
  {
    hide AllCells, DataCells, FunctionCells, Apart;
    AllCellsCount(ver);
    CellsSplit(ver);
    UnionSize(DataCells(ver), FunctionCells(ver));
  }

  /** The formula for the number of modules left for the codewords counts exactly the modules outside all patterns. */
  lemma DataCellCount(ver: Version)
    ensures |DataCells(ver)| == NumRawDataModules(ver)
  {
    hide FunctionCells, DataCells, CornerCells, TimingCells, VersionCells, AlignCells, AllCells, IsFunction;
    DataAndFunctionCells(ver);
    FunctionCellCount(ver);
    CornerCount(ver);
    TimingCount(ver);
    VersionCount(ver);
    AlignCount(ver);
    assert Size(ver) * Size(ver) == (16 * ver + 136) * ver + 289;
  }
}
