/** The encoder as a whole, and a reader that recovers the input from the finished symbol. */
module QrCode {
  import opened Options
  import opened Bits
  import opened BitStream
  import opened Versions
  import opened FunctionPatterns
  import opened Zigzag
  import opened Colours
  import opened Interleaving
  import opened Symbol
  import opened PenaltyRules
  import opened ReedSolomon

  // ---------------------------------------------------------------------------
  // Mask trials
  // ---------------------------------------------------------------------------

  /** One module of the symbol under a mask: a pattern colour, or the placed bit, inverted where the mask says so. */
  predicate TrialModule(ver: Version, ecl: Ecl, bits: seq<bool>, mask: Mask, x: int, y: int)
    requires Within(ver, x, y)
  {
    if IsFunction(ver, x, y) then FunctionDark(ver, ecl, mask, x, y)
    else DataModule(ver, bits, x, y) != Inverts(mask, x, y)
  }

  function TrialGrid(ver: Version, ecl: Ecl, bits: seq<bool>, mask: Mask): (g: Grid)
    ensures IsGrid(g, Size(ver)) && |g| == Size(ver)
    ensures forall x, y | Within(ver, x, y) :: g[y][x] == TrialModule(ver, ecl, bits, mask, x, y)
  {
    seq(Size(ver), y requires 0 <= y < Size(ver) =>
      seq(Size(ver), x requires 0 <= x < Size(ver) => TrialModule(ver, ecl, bits, mask, x, y)))
  }

  /** `best` has the least penalty, and is the first mask that has it. */
  ghost predicate IsBestMask(ver: Version, ecl: Ecl, bits: seq<bool>, best: Mask) {
    forall m: Mask ::
      var p, q := Penalty(TrialGrid(ver, ecl, bits, best)), Penalty(TrialGrid(ver, ecl, bits, m));
      p <= q && (m < best ==> p < q)
  }

  /** A few modules beside the top left finder pattern carry data in every version. */
  lemma InnerIsData(ver: Version, x: int, y: int)
    requires 9 <= x <= 12 && 9 <= y <= 12
    ensures Within(ver, x, y) && !IsFunction(ver, x, y)
  {
    if ver > 1 {
      SpanPlaces(ver, x);
      SpanPlaces(ver, y);
    }
    hide NearCentre;
  }

  ghost predicate DifferAt(ver: Version, g: Grid, h: Grid, x: int, y: int)
    requires IsGrid(g, Size(ver)) && IsGrid(h, Size(ver))
  {
    Within(ver, x, y) && !IsFunction(ver, x, y) && g[y][x] != h[y][x]
  }

  /** No two masks invert the same four modules. */
  lemma MasksDiffer(m: Mask, n: Mask)
    requires m != n
    ensures || Inverts(m, 9, 9) != Inverts(n, 9, 9) || Inverts(m, 9, 10) != Inverts(n, 9, 10)
            || Inverts(m, 10, 10) != Inverts(n, 10, 10) || Inverts(m, 10, 11) != Inverts(n, 10, 11)
  {
  }

  /** The eight candidates for the same bits all differ in their data modules, in every version. */
  lemma TrialsDiffer(ver: Version, ecl: Ecl, bits: seq<bool>, m: Mask, n: Mask)
    requires m != n
    ensures var g, h := TrialGrid(ver, ecl, bits, m), TrialGrid(ver, ecl, bits, n);
            exists x, y :: DifferAt(ver, g, h, x, y)
  {
    hide IsFunction, FunctionDark, DataModule, Inverts;
    var g, h := TrialGrid(ver, ecl, bits, m), TrialGrid(ver, ecl, bits, n);
    MasksDiffer(m, n);
    InnerIsData(ver, 9, 9);
    InnerIsData(ver, 9, 10);
    InnerIsData(ver, 10, 10);
    InnerIsData(ver, 10, 11);
    assert || DifferAt(ver, g, h, 9, 9) || DifferAt(ver, g, h, 9, 10)
           || DifferAt(ver, g, h, 10, 10) || DifferAt(ver, g, h, 10, 11);
  }

  lemma FormatIsFunction(ver: Version, x: int, y: int)
    requires Within(ver, x, y)
    ensures FormatIndex(ver, x, y) >= 0 ==> IsFunction(ver, x, y) && VersionIndex(ver, x, y) < 0
  {
  }

  /** What the grid holds between trials: the format bits of one mask, and the data with another mask or none. */
  ghost predicate Holds(m: Matrix, bits: seq<bool>, format: Mask, masked: bool, mask: Mask)
    requires m.Valid()
    reads m.modules, m.isFunction
  {
    && (forall x, y | Within(m.version, x, y) :: m.isFunction[y, x] == IsFunction(m.version, x, y))
    && (forall x, y | Within(m.version, x, y) ::
          m.modules[y, x] == if IsFunction(m.version, x, y) then FunctionDark(m.version, m.ecl, format, x, y)
                             else DataModule(m.version, bits, x, y) != (masked && Inverts(mask, x, y)))
  }

  /** Applies a mask to unmasked data, or takes the same mask off again. */
  method Toggle(m: Matrix, mask: Mask, ghost bits: seq<bool>, ghost format: Mask, ghost masked: bool)
    requires m.Valid() && Holds(m, bits, format, masked, mask)
    modifies m.modules
    ensures Holds(m, bits, format, !masked, mask)
  {
    hide IsFunction, FunctionDark, DataModule, Inverts;
    m.ApplyMask(mask);
  }

  method DrawFormat(m: Matrix, mask: Mask, ghost bits: seq<bool>, ghost format: Mask, ghost masked: bool,
                    ghost other: Mask)
    requires m.Valid() && Holds(m, bits, format, masked, other)
    modifies m.modules, m.isFunction
    ensures Holds(m, bits, mask, masked, other)
  {
    hide IsFunction, DataModule, Inverts, FormatIndex, VersionIndex, FormatDark, BaseDark;
    forall x, y | Within(m.version, x, y)
      ensures FormatIndex(m.version, x, y) >= 0 ==>
                IsFunction(m.version, x, y) && VersionIndex(m.version, x, y) < 0
    {
      FormatIsFunction(m.version, x, y);
    }
    m.DrawFormatBits(mask);
  }

  lemma MaskedIsTrial(m: Matrix, bits: seq<bool>, mask: Mask)
    requires m.Valid() && Holds(m, bits, mask, true, mask)
    ensures GridOf(m.modules) == TrialGrid(m.version, m.ecl, bits, mask)
  {
    hide IsFunction, FunctionDark, DataModule, Inverts;
    var g, t := GridOf(m.modules), TrialGrid(m.version, m.ecl, bits, mask);
    hide TrialGrid, GridOf;
    forall y | 0 <= y < Size(m.version)
      ensures g[y] == t[y]
    {
      forall x | 0 <= x < Size(m.version)
        ensures g[y][x] == t[y][x]
      {
        assert Within(m.version, x, y);
      }
    }
  }

  method BuildMatrix(codewords: seq<Byte>, version: Version, ecl: Ecl) returns (m: Matrix, ghost best: Mask)
    ensures m.Valid() && fresh(m) && m.version == version && m.ecl == ecl
    ensures GridOf(m.modules) == TrialGrid(version, ecl, BytesToBits(codewords), best)
    ensures IsBestMask(version, ecl, BytesToBits(codewords), best)
  {
    hide IsFunction, FunctionDark, DataModule, Inverts, Penalty, TrialGrid, BytesToBits;
    m := new Matrix(version, ecl);
    m.DrawFunctionPatterns();
    m.PlaceCodewords(codewords);
    ghost var bits := BytesToBits(codewords);
    assert Holds(m, bits, 0, false, 0);
    var bestMask: Mask := 0;
    var minPenalty: Option<int> := None;
    ghost var format: Mask := 0;
    for k := 0 to 8
      invariant Holds(m, bits, format, false, 0)
      invariant minPenalty.None? <==> k == 0
      invariant k > 0 ==> bestMask < k && minPenalty == Some(Penalty(TrialGrid(version, ecl, bits, bestMask)))
      invariant forall j: Mask :: j < k ==>
                  var q := Penalty(TrialGrid(version, ecl, bits, j));
                  minPenalty.value <= q && (j < bestMask ==> minPenalty.value < q)
    {
      assert Holds(m, bits, format, false, k);
      Toggle(m, k, bits, format, false);
      DrawFormat(m, k, bits, format, true, k);
      MaskedIsTrial(m, bits, k);
      var p := PenaltyScore(m.modules);
      if minPenalty.None? || p < minPenalty.value {
        minPenalty := Some(p);
        bestMask := k;
      }
      Toggle(m, k, bits, k, true);
      format := k;
      assert Holds(m, bits, format, false, 0);
    }
    assert Holds(m, bits, format, false, bestMask);
    Toggle(m, bestMask, bits, format, false);
    DrawFormat(m, bestMask, bits, format, true, bestMask);
    MaskedIsTrial(m, bits, bestMask);
    best := bestMask;
  }

  // ---------------------------------------------------------------------------
  // Reading a symbol
  // ---------------------------------------------------------------------------

  /** The fifteen bits of one of the two copies of the format word, most significant first. */
  function ReadFormat(g: Grid, second: bool): nat
    requires IsGrid(g, |g|) && |g| >= 21
  {
    FromBits(seq(15, k requires 0 <= k < 15 => FormatModule(g, second, 14 - k)))
  }

  function FormatModule(g: Grid, second: bool, i: nat): bool
    requires IsGrid(g, |g|) && |g| >= 21 && i < 15
  {
    var (x, y) := if second then FormatCopy(|g|, i) else FormatCell(i);
    g[y][x]
  }

  /** The eighteen bits of one of the two copies of the version word. */
  function ReadVersion(g: Grid, transposed: bool): nat
    requires IsGrid(g, |g|) && |g| >= 21
  {
    FromBits(seq(18, k requires 0 <= k < 18 => VersionModule(g, transposed, 17 - k)))
  }

  function VersionModule(g: Grid, transposed: bool, i: nat): bool
    requires IsGrid(g, |g|) && |g| >= 21 && i < 18
  {
    var (x, y) := VersionCell(|g|, transposed, i);
    g[y][x]
  }

  /** Every data module with the mask taken off. */
  function Unmask(g: Grid, mask: Mask): (u: Grid)
    requires IsGrid(g, |g|)
    ensures |u| == |g| && IsGrid(u, |g|)
  {
    seq(|g|, y requires 0 <= y < |g| => seq(|g|, x requires 0 <= x < |g| => g[y][x] != Inverts(mask, x, y)))
  }

  /** What a reader makes of a symbol: size, format, mask, traversal, blocks and bit stream in turn. */
  function Decode(g: Grid): Option<seq<Byte>> {
    if !(21 <= |g| <= 177 && |g| % 4 == 1 && IsGrid(g, |g|)) then None
    else DecodeVersion(g, (|g| - 17) / 4)
  }

  function DecodeVersion(g: Grid, ver: Version): Option<seq<Byte>>
    requires |g| == Size(ver) && IsGrid(g, |g|)
  {
    var format := ReadFormat(g, false);
    DecodeBits(ReadModules(ver, Unmask(g, FormatMask(format)), Pairs(ver), 0), ver, FormatEcl(format))
  }

  function DecodeBits(bits: seq<bool>, ver: Version, ecl: Ecl): Option<seq<Byte>> {
    var n := 8 * RawCodewords(ver);
    if n < 0 || |bits| < n then None else DecodeCodewords(BitsToBytes(bits[..n]), ver, LayoutOf(ver, ecl))
  }

  function DecodeCodewords(codewords: seq<Byte>, ver: Version, l: Layout): Option<seq<Byte>> {
    if Covers(l, codewords) then Parse(ReadData(l, codewords, l.blocks), ver) else None
  }

  lemma FormatCellIs(ver: Version, second: bool, i: nat)
    requires i < 15
    ensures var (x, y) := if second then FormatCopy(Size(ver), i) else FormatCell(i);
            Within(ver, x, y) && IsFunction(ver, x, y) && FormatIndex(ver, x, y) == i && VersionIndex(ver, x, y) < 0
  {
  }

  lemma VersionCellIs(ver: Version, transposed: bool, i: nat)
    requires ver >= 7 && i < 18
    ensures var (x, y) := VersionCell(Size(ver), transposed, i);
            Within(ver, x, y) && IsFunction(ver, x, y) && VersionIndex(ver, x, y) == i
  {
  }

  /** Every trial, whatever its mask, carries its own format, twice. */
  lemma ReadFormatBack(ver: Version, ecl: Ecl, bits: seq<bool>, mask: Mask, second: bool)
    ensures ReadFormat(TrialGrid(ver, ecl, bits, mask), second) == FormatBits(ecl, mask)
  {
    hide FormatBits, FromBits, ToBits, DataModule, IsFunction, TrialGrid, FormatCell, FormatCopy, FormatIndex;
    hide VersionIndex, GetBit;
    var g, f := TrialGrid(ver, ecl, bits, mask), FormatBits(ecl, mask);
    var s := seq(15, k requires 0 <= k < 15 => FormatModule(g, second, 14 - k));
    forall k | 0 <= k < 15
      ensures s[k] == ToBits(f, 15)[k]
    {
      FormatCellIs(ver, second, 14 - k);
      ToBitsAt(f, 15, k);
    }
    assert s == ToBits(f, 15);
    FormatBitsBelow(ecl, mask);
    PowersOfTwo();
    FromToBits(f, 15);
  }

  /** From version 7 on, every trial carries its version, twice. */
  lemma ReadVersionBack(ver: Version, ecl: Ecl, bits: seq<bool>, mask: Mask, transposed: bool)
    requires ver >= 7
    ensures ReadVersion(TrialGrid(ver, ecl, bits, mask), transposed) == VersionBits(ver)
    ensures ReadVersion(TrialGrid(ver, ecl, bits, mask), transposed) / 4096 == ver
  {
    hide VersionBits, FromBits, ToBits, DataModule, IsFunction, TrialGrid, VersionCell, FormatIndex;
    hide VersionIndex, GetBit;
    var g, f := TrialGrid(ver, ecl, bits, mask), VersionBits(ver);
    var s := seq(18, k requires 0 <= k < 18 => VersionModule(g, transposed, 17 - k));
    forall k | 0 <= k < 18
      ensures s[k] == ToBits(f, 18)[k]
    {
      VersionCellIs(ver, transposed, 17 - k);
      ToBitsAt(f, 18, k);
    }
    assert s == ToBits(f, 18);
    VersionBitsBelow(ver);
    PowersOfTwo();
    FromToBits(f, 18);
  }

  /** Unmasking a trial gives back the placed bits. */
  lemma ReadBitsBack(ver: Version, ecl: Ecl, bits: seq<bool>, mask: Mask)
    requires |bits| <= NumRawDataModules(ver)
    ensures var s := ReadModules(ver, Unmask(TrialGrid(ver, ecl, bits, mask), mask), Pairs(ver), 0);
            |s| == NumRawDataModules(ver) && s[..|bits|] == bits
  {
    hide IsFunction, FunctionDark, DataModule, Inverts, ReadModules, Rank, NumRawDataModules;
    var g := TrialGrid(ver, ecl, bits, mask);
    var u := Unmask(g, mask);
    forall x, y | Within(ver, x, y) && x != 6 && !IsFunction(ver, x, y)
      ensures u[y][x] == DataModule(ver, bits, x, y)
    {
      assert g[y][x] == TrialModule(ver, ecl, bits, mask, x, y);
    }
    hide TrialGrid, Unmask;
    ReadBack(ver, u, bits, Pairs(ver), 0);
    TotalRank(ver);
  }

  /** A symbol with any of the eight masks decodes to the bytes that its data codewords carry. */
  lemma DecodeTrial(ver: Version, ecl: Ecl, codewords: seq<Byte>, mask: Mask, bytes: seq<Byte>)
    requires |codewords| == RawCodewords(ver) && Covers(LayoutOf(ver, ecl), codewords)
    requires Parse(ReadData(LayoutOf(ver, ecl), codewords, LayoutOf(ver, ecl).blocks), ver) == Some(bytes)
    ensures Decode(TrialGrid(ver, ecl, BytesToBits(codewords), mask)) == Some(bytes)
  {
    hide BytesToBits, BitsToBytes, TrialGrid, ReadFormat, ReadModules, Unmask, Parse, LayoutOf, FormatBits, FormatMask;
    hide FormatEcl, NumRawDataModules;
    var bits := BytesToBits(codewords);
    var g := TrialGrid(ver, ecl, bits, mask);
    ReadFormatBack(ver, ecl, bits, mask, false);
    FormatRoundTrip(ecl, mask);
    ReadBitsBack(ver, ecl, bits, mask);
    BytesBitsBytes(codewords);
  }

  // ---------------------------------------------------------------------------
  // What a symbol can hold
  // ---------------------------------------------------------------------------

  /** A square of modules of a size that symbols have, whose format word names the level. */
  predicate IsSymbolOf(g: Grid, ecl: Ecl) {
    21 <= |g| <= 177 && |g| % 4 == 1 && IsGrid(g, |g|) && FormatEcl(ReadFormat(g, false)) == ecl
  }

  /** Whatever its modules are, a symbol can be read as bytes only if they fit its version and level. */
  lemma DecodedFits(g: Grid, ecl: Ecl, bytes: seq<Byte>)
    requires IsSymbolOf(g, ecl) && Decode(g) == Some(bytes)
    ensures Fits(|bytes|, (|g| - 17) / 4, ecl)
  {
    hide Unmask, ReadModules, BitsToBytes, Parse, Fits, LayoutOf, FormatMask, FormatEcl, ReadFormat, Pairs;
    var ver: Version := (|g| - 17) / 4;
    assert |g| == Size(ver);
    var bits := ReadModules(ver, Unmask(g, FormatMask(ReadFormat(g, false))), Pairs(ver), 0);
    assert DecodeBits(bits, ver, ecl) == Some(bytes);
    DecodedBitsFit(bits, ver, ecl, bytes);
  }

  lemma DecodedBitsFit(bits: seq<bool>, ver: Version, ecl: Ecl, bytes: seq<Byte>)
    requires DecodeBits(bits, ver, ecl) == Some(bytes)
    ensures Fits(|bytes|, ver, ecl)
  {
    hide BitsToBytes, Parse, Fits, LayoutOf, RawCodewords;
    var l, codewords := LayoutOf(ver, ecl), BitsToBytes(bits[..8 * RawCodewords(ver)]);
    LayoutTotals(ver, ecl);
    ParsedFits(ReadData(l, codewords, l.blocks), ver, ecl, bytes);
  }

  // ---------------------------------------------------------------------------
  // The encoder
  // ---------------------------------------------------------------------------

  datatype QrResult =
    | Encoded(size: nat, version: nat, ecl: Ecl, modules: array2<bool>)
    | DataTooLong

  /**
   * The smallest symbol of the level from which a reader gets the bytes, with the best mask. There is none exactly if
   * there are more bytes than the largest version holds.
   */
  method EncodeQr(bytes: seq<Byte>, ecl: Ecl) returns (r: QrResult)
    ensures r.DataTooLong? <==> |bytes| > match ecl case L => 2953 case M => 2331 case Q => 1663 case H => 1273
    ensures r.DataTooLong? ==> forall g :: IsSymbolOf(g, ecl) ==> Decode(g) != Some(bytes)
    ensures r.Encoded? ==>
              && 1 <= r.version <= 40 && r.ecl == ecl && r.size == 4 * r.version + 17
              && IsSymbolOf(GridOf(r.modules), ecl) && |GridOf(r.modules)| == r.size
              && Decode(GridOf(r.modules)) == Some(bytes)
              && forall g :: IsSymbolOf(g, ecl) && |g| < r.size ==> Decode(g) != Some(bytes)
    ensures r.Encoded? ==>
              exists codewords: seq<Byte>, best: Mask ::
                && IsCodeStream(LayoutOf(r.version, ecl), codewords)
                && GridOf(r.modules) == TrialGrid(r.version, ecl, BytesToBits(codewords), best)
                && IsBestMask(r.version, ecl, BytesToBits(codewords), best)
  {
    hide Fits, Parse, LayoutOf, IsBestMask, TrialGrid, Decode, Covers, IsCodeStream, Remainder, Generator;
    hide BytesToBits, NumDataCodewords, IsSymbolOf;
    var version := ChooseVersion(|bytes|, ecl);
    LargestData(|bytes|, ecl);
    NoSmallerSymbol(bytes, ecl, version);
    if version > 40 {
      return DataTooLong;
    }
    var dataCodewords := PackCodewords(bytes, version, ecl);
    var allCodewords := AddEccAndInterleave(dataCodewords, version, ecl);
    var m, best := BuildMatrix(allCodewords, version, ecl);
    DecodeTrial(version, ecl, allCodewords, best, bytes);
    TrialIsSymbol(version, ecl, BytesToBits(allCodewords), best);
    r := Encoded(Size(version), version, ecl, m.modules);
  }

  lemma TrialIsSymbol(ver: Version, ecl: Ecl, bits: seq<bool>, mask: Mask)
    ensures IsSymbolOf(TrialGrid(ver, ecl, bits, mask), ecl)
  {
    hide ReadFormat, FormatBits, FormatEcl, FormatMask, TrialModule;
    ReadFormatBack(ver, ecl, bits, mask, false);
    FormatRoundTrip(ecl, mask);
  }

  lemma NoSmallerSymbol(bytes: seq<Byte>, ecl: Ecl, version: nat)
    requires forall v: Version :: v < version ==> !Fits(|bytes|, v, ecl)
    ensures forall g :: IsSymbolOf(g, ecl) && |g| < 4 * version + 17 ==> Decode(g) != Some(bytes)
    ensures version > 40 ==> forall g :: IsSymbolOf(g, ecl) ==> Decode(g) != Some(bytes)
  {
    hide Fits, Decode, FormatEcl, ReadFormat;
    forall g | IsSymbolOf(g, ecl) && Decode(g) == Some(bytes)
      ensures |g| >= 4 * version + 17
    {
      DecodedFits(g, ecl, bytes);
      assert |g| == 4 * ((|g| - 17) / 4) + 17;
    }
  }
}
