/** The module grid and everything that is drawn into it (sections 6.3 and 7.7 to 7.10 of ISO/IEC 18004:2015). */
module Symbol {
  import opened Numbers
  import opened BitStream
  import opened Bits
  import opened Versions
  import opened FunctionPatterns
  import opened Zigzag
  import opened Colours

  class Matrix {
    const version: Version
    const ecl: Ecl
    const modules: array2<bool>
    const isFunction: array2<bool>

    ghost predicate Valid() {
      && modules != isFunction
      && modules.Length0 == modules.Length1 == Size(version)
      && isFunction.Length0 == isFunction.Length1 == Size(version)
    }

    constructor (version: Version, ecl: Ecl)
      ensures Valid() && fresh(modules) && fresh(isFunction)
      ensures this.version == version && this.ecl == ecl
      ensures forall x, y | Within(version, x, y) :: !modules[y, x] && !isFunction[y, x]
    {
      this.version := version;
      this.ecl := ecl;
      modules := new bool[Size(version), Size(version)]((y, x) => false);
      isFunction := new bool[Size(version), Size(version)]((y, x) => false);
    }

    method SetFn(x: int, y: int, dark: bool)
      requires Valid() && Within(version, x, y)
      modifies modules, isFunction
      ensures forall i, j | Within(version, i, j) ::
                modules[j, i] == if i == x && j == y then dark else old(modules[j, i])
      ensures forall i, j | Within(version, i, j) :: isFunction[j, i] == ((i == x && j == y) || old(isFunction[j, i]))
    {
      modules[y, x] := dark;
      isFunction[y, x] := true;
    }

    method DrawTiming()
      requires Valid()
      requires forall x, y | Within(version, x, y) :: !modules[y, x] && !isFunction[y, x]
      modifies modules, isFunction
      ensures forall x, y | Within(version, x, y) :: isFunction[y, x] == IsTiming(x, y)
      ensures forall x, y | Within(version, x, y) ::
                modules[y, x] == (IsTiming(x, y) && (if y == 6 then x % 2 == 0 else y % 2 == 0))
    {
      for i := 0 to Size(version)
        invariant forall x, y | Within(version, x, y) ::
                    isFunction[y, x] == ((x == 6 && y < i) || (y == 6 && x < i))
        invariant forall x, y | Within(version, x, y) ::
                    modules[y, x] == if y == 6 && x < i then x % 2 == 0 else x == 6 && y < i && y % 2 == 0
      {
        SetFn(6, i, i % 2 == 0);
        SetFn(i, 6, i % 2 == 0);
      }
    }

    method DrawFinder(cx: int, cy: int)
      requires Valid()
      modifies modules, isFunction
      ensures forall x, y | Within(version, x, y) ::
                isFunction[y, x] == (NearFinder(x, y, cx, cy) || old(isFunction[y, x]))
      ensures forall x, y | Within(version, x, y) ::
                modules[y, x] == if NearFinder(x, y, cx, cy) then FinderDark(x - cx, y - cy) else old(modules[y, x])
    {
      for dy := -4 to 5
        invariant forall x, y | Within(version, x, y) ::
                    isFunction[y, x] == ((NearFinder(x, y, cx, cy) && y - cy < dy) || old(isFunction[y, x]))
        invariant forall x, y | Within(version, x, y) ::
                    modules[y, x] == if NearFinder(x, y, cx, cy) && y - cy < dy then FinderDark(x - cx, y - cy)
                                     else old(modules[y, x])
      {
        for dx := -4 to 5
          invariant forall x, y | Within(version, x, y) ::
                      isFunction[y, x] == ((NearFinder(x, y, cx, cy) && (y - cy < dy || (y - cy == dy && x - cx < dx)))
                                           || old(isFunction[y, x]))
          invariant forall x, y | Within(version, x, y) ::
                      modules[y, x] == if NearFinder(x, y, cx, cy) && (y - cy < dy || (y - cy == dy && x - cx < dx))
                                       then FinderDark(x - cx, y - cy)
                                       else old(modules[y, x])
        {
          var dist := Max(Abs(dx), Abs(dy));
          var xx, yy := cx + dx, cy + dy;
          if xx >= 0 && xx < Size(version) && yy >= 0 && yy < Size(version) {
            SetFn(xx, yy, dist != 2 && dist != 4);
          }
        }
      }
    }

    method DrawAlign(cx: int, cy: int)
      requires Valid() && 2 <= cx < Size(version) - 2 && 2 <= cy < Size(version) - 2
      modifies modules, isFunction
      ensures forall x, y | Within(version, x, y) ::
                isFunction[y, x] == ((Abs(x - cx) <= 2 && Abs(y - cy) <= 2) || old(isFunction[y, x]))
      ensures forall x, y | Within(version, x, y) ::
                modules[y, x] == if Abs(x - cx) <= 2 && Abs(y - cy) <= 2 then AlignDark(x - cx, y - cy)
                                 else old(modules[y, x])
    {
      for dy := -2 to 3
        invariant forall x, y | Within(version, x, y) ::
                    isFunction[y, x] == ((Abs(x - cx) <= 2 && -2 <= y - cy < dy) || old(isFunction[y, x]))
        invariant forall x, y | Within(version, x, y) ::
                    modules[y, x] == if Abs(x - cx) <= 2 && -2 <= y - cy < dy then AlignDark(x - cx, y - cy)
                                     else old(modules[y, x])
      {
        for dx := -2 to 3
          invariant forall x, y | Within(version, x, y) ::
                      isFunction[y, x] == ((Abs(x - cx) <= 2 && -2 <= y - cy < dy) ||
                                           (y - cy == dy && -2 <= x - cx < dx) || old(isFunction[y, x]))
          invariant forall x, y | Within(version, x, y) ::
                      modules[y, x] == if (Abs(x - cx) <= 2 && -2 <= y - cy < dy) || (y - cy == dy && -2 <= x - cx < dx)
                                       then AlignDark(x - cx, y - cy)
                                       else old(modules[y, x])
        {
          SetFn(cx + dx, cy + dy, Max(Abs(dx), Abs(dy)) != 1);
        }
      }
    }

    /** The centre coordinates, each further one put in after the 6 at the front. */
    method AlignCentres() returns (pos: seq<int>)
      requires version > 1
      ensures |pos| == NumAlign(version)
      ensures forall i :: 0 <= i < |pos| ==> pos[i] == Centre(version, i)
    {
      var numAlign := NumAlign(version);
      var step := if version == 32 then 26 else CeilDiv(version * 4 + 4, numAlign * 2 - 2) * 2;
      pos := [6];
      var p := Size(version) - 7;
      while |pos| < numAlign
        invariant 1 <= |pos| <= numAlign
        invariant pos[0] == 6
        invariant forall k :: 1 <= k < |pos| ==> pos[k] == Centre(version, numAlign - |pos| + k)
        invariant |pos| < numAlign ==> p == Centre(version, numAlign - |pos|)
      {
        pos := [6] + [p] + pos[1..];
        p := p - step;
      }
    }

    method DrawAlignments()
      requires Valid()
      modifies modules, isFunction
      ensures forall x, y | Within(version, x, y) ::
                isFunction[y, x] == (IsAlign(version, x, y) || old(isFunction[y, x]))
      ensures forall x, y | Within(version, x, y) ::
                modules[y, x] == if IsAlign(version, x, y) then AlignColour(version, x, y) else old(modules[y, x])
    {
      hide NearCentre, Centre, AlignColour;
      if version > 1 {
        var numAlign := NumAlign(version);
        var pos := AlignCentres();
        for i := 0 to numAlign
          invariant forall x, y | Within(version, x, y) ::
                      isFunction[y, x] == (AlignBefore(version, i, 0, x, y) || old(isFunction[y, x]))
          invariant forall x, y | Within(version, x, y) ::
                      modules[y, x] == if AlignBefore(version, i, 0, x, y) then AlignColour(version, x, y)
                                       else old(modules[y, x])
        {
          for j := 0 to numAlign
            invariant forall x, y | Within(version, x, y) ::
                        isFunction[y, x] == (AlignBefore(version, i, j, x, y) || old(isFunction[y, x]))
            invariant forall x, y | Within(version, x, y) ::
                        modules[y, x] == if AlignBefore(version, i, j, x, y) then AlignColour(version, x, y)
                                         else old(modules[y, x])
          {
            if !((i == 0 && j == 0) || (i == 0 && j == numAlign - 1) || (i == numAlign - 1 && j == 0)) {
              DrawAlignNumber(pos, i, j);
            }
          }
        }
      }
    }

    method DrawAlignNumber(pos: seq<int>, i: nat, j: nat)
      requires Valid() && version > 1 && |pos| == NumAlign(version) && i < |pos| && j < |pos|
      requires pos[i] == Centre(version, i) && pos[j] == Centre(version, j)
      requires !Corner(|pos|, i, j)
      modifies modules, isFunction
      ensures forall x, y | Within(version, x, y) ::
                isFunction[y, x] ==
                ((NearCentre(version, x) == i && NearCentre(version, y) == j) || old(isFunction[y, x]))
      ensures forall x, y | Within(version, x, y) ::
                modules[y, x] == if NearCentre(version, x) == i && NearCentre(version, y) == j
                                 then AlignColour(version, x, y) else old(modules[y, x])
    {
      CentreInside(version, i);
      CentreInside(version, j);
      forall x, y | Within(version, x, y)
        ensures (Abs(x - pos[i]) <= 2 && Abs(y - pos[j]) <= 2) <==>
                NearCentre(version, x) == i && NearCentre(version, y) == j
      {
        NearCentreIs(version, i, x);
        NearCentreIs(version, j, y);
      }
      hide NearCentre, Centre, NumAlign, AlignDark;
      DrawAlign(pos[i], pos[j]);
    }

    method FormatWord(mask: Mask) returns (bits: nat)
      ensures bits == FormatBits(ecl, mask)
    {
      var data := EclFormatBits(ecl) * 8 + mask;
      var rem := data;
      for i := 0 to 10
        invariant rem == CheckBits(data, 10, 0x537, i)
      {
        rem := Xor(rem * 2, Shr(rem, 9) * 0x537);
      }
      // `rem` has ten bits, so the two parts do not overlap.
      FormatBitsBelow(ecl, mask);
      bits := Xor(data * 1024 + rem, 0x5412);
    }

    method DrawFirstCopy(bits: nat, mask: Mask)
      requires Valid() && bits == FormatBits(ecl, mask)
      modifies modules, isFunction
      ensures forall x, y | Within(version, x, y) ::
                isFunction[y, x] == (FormatDrawn(version, 15, 0, x, y) || old(isFunction[y, x]))
      ensures forall x, y | Within(version, x, y) ::
                modules[y, x] == if FormatDrawn(version, 15, 0, x, y)
                                 then FormatDark(ecl, mask, FormatIndex(version, x, y)) else old(modules[y, x])
    {
      hide FormatBits, GetBit;
      for i := 0 to 6
        invariant forall x, y | Within(version, x, y) ::
                    isFunction[y, x] == (FormatDrawn(version, i, 0, x, y) || old(isFunction[y, x]))
        invariant forall x, y | Within(version, x, y) ::
                    modules[y, x] == if FormatDrawn(version, i, 0, x, y)
                                     then FormatDark(ecl, mask, FormatIndex(version, x, y)) else old(modules[y, x])
      {
        SetFn(8, i, GetBit(bits, i));
      }
      SetFn(8, 7, GetBit(bits, 6));
      SetFn(8, 8, GetBit(bits, 7));
      SetFn(7, 8, GetBit(bits, 8));
      for i := 9 to 15
        invariant forall x, y | Within(version, x, y) ::
                    isFunction[y, x] == (FormatDrawn(version, i, 0, x, y) || old(isFunction[y, x]))
        invariant forall x, y | Within(version, x, y) ::
                    modules[y, x] == if FormatDrawn(version, i, 0, x, y)
                                     then FormatDark(ecl, mask, FormatIndex(version, x, y)) else old(modules[y, x])
      {
        SetFn(14 - i, 8, GetBit(bits, i));
      }
    }

    method DrawSecondCopy(bits: nat, mask: Mask)
      requires Valid() && bits == FormatBits(ecl, mask)
      modifies modules, isFunction
      ensures forall x, y | Within(version, x, y) ::
                isFunction[y, x] == (FormatDrawn(version, 0, 16, x, y) || old(isFunction[y, x]))
      ensures forall x, y | Within(version, x, y) ::
                modules[y, x] == if FormatDrawn(version, 0, 16, x, y)
                                 then FormatDark(ecl, mask, FormatIndex(version, x, y)) else old(modules[y, x])
    {
      hide FormatBits, GetBit;
      for i := 0 to 8
        invariant forall x, y | Within(version, x, y) ::
                    isFunction[y, x] == (FormatDrawn(version, 0, i, x, y) || old(isFunction[y, x]))
        invariant forall x, y | Within(version, x, y) ::
                    modules[y, x] == if FormatDrawn(version, 0, i, x, y)
                                     then FormatDark(ecl, mask, FormatIndex(version, x, y)) else old(modules[y, x])
      {
        SetFn(Size(version) - 1 - i, 8, GetBit(bits, i));
      }
      for i := 8 to 15
        invariant forall x, y | Within(version, x, y) ::
                    isFunction[y, x] == (FormatDrawn(version, 0, i, x, y) || old(isFunction[y, x]))
        invariant forall x, y | Within(version, x, y) ::
                    modules[y, x] == if FormatDrawn(version, 0, i, x, y)
                                     then FormatDark(ecl, mask, FormatIndex(version, x, y)) else old(modules[y, x])
      {
        SetFn(8, Size(version) - 15 + i, GetBit(bits, i));
      }
      SetFn(8, Size(version) - 8, true);
    }

    method DrawFormatBits(mask: Mask)
      requires Valid()
      modifies modules, isFunction
      ensures forall x, y | Within(version, x, y) ::
                isFunction[y, x] == (FormatIndex(version, x, y) >= 0 || old(isFunction[y, x]))
      ensures forall x, y | Within(version, x, y) ::
                modules[y, x] == if FormatIndex(version, x, y) >= 0
                                 then FormatDark(ecl, mask, FormatIndex(version, x, y))
                                 else old(modules[y, x])
    {
      hide FormatBits, FormatDark;
      var bits := FormatWord(mask);
      DrawFirstCopy(bits, mask);
      DrawSecondCopy(bits, mask);
    }

    method VersionWord() returns (bits: nat)
      ensures bits == VersionBits(version)
    {
      var rem: nat := version;
      for i := 0 to 12
        invariant rem == CheckBits(version, 12, 0x1f25, i)
      {
        rem := Xor(rem * 2, Shr(rem, 11) * 0x1f25);
      }
      // `rem` has twelve bits, so the two parts do not overlap.
      PowersOfTwo();
      CheckBitsBelow(version, 12, 0x1f25, 12);
      assert rem < 4096;
      bits := version * 4096 + rem;
    }

    method DrawVersion()
      requires Valid()
      modifies modules, isFunction
      ensures forall x, y | Within(version, x, y) ::
                isFunction[y, x] == (VersionIndex(version, x, y) >= 0 || old(isFunction[y, x]))
      ensures forall x, y | Within(version, x, y) ::
                modules[y, x] == if VersionIndex(version, x, y) >= 0
                                 then GetBit(VersionBits(version), VersionIndex(version, x, y))
                                 else old(modules[y, x])
    {
      hide VersionBits, GetBit;
      if version < 7 {
        return;
      }
      var bits := VersionWord();
      for i := 0 to 18
        invariant forall x, y | Within(version, x, y) ::
                    isFunction[y, x] == (0 <= VersionIndex(version, x, y) < i || old(isFunction[y, x]))
        invariant forall x, y | Within(version, x, y) ::
                    modules[y, x] == if 0 <= VersionIndex(version, x, y) < i
                                     then GetBit(bits, VersionIndex(version, x, y)) else old(modules[y, x])
      {
        var bit := GetBit(bits, i);
        var a, b := Size(version) - 11 + i % 3, i / 3;
        SetFn(a, b, bit);
        SetFn(b, a, bit);
      }
    }

    method DrawFunctionPatterns()
      requires Valid()
      requires forall x, y | Within(version, x, y) :: !modules[y, x] && !isFunction[y, x]
      modifies modules, isFunction
      ensures forall x, y | Within(version, x, y) :: isFunction[y, x] == IsFunction(version, x, y)
      ensures forall x, y | Within(version, x, y) ::
                modules[y, x] == (IsFunction(version, x, y) && FunctionDark(version, ecl, 0, x, y))
    {
      hide FinderDark, AlignDark, IsAlign, NearCentre, Centre, VersionBits, FormatDark, GetBit;
      DrawTiming();
      DrawFinder(3, 3);
      DrawFinder(Size(version) - 4, 3);
      DrawFinder(3, Size(version) - 4);
      DrawAlignments();
      DrawFormatBits(0);
      DrawVersion();
    }

    /** Fills the data modules with the bits of the codewords, in traversal order. */
    method PlaceCodewords(codewords: seq<Byte>)
      requires Valid()
      requires forall x, y | Within(version, x, y) :: isFunction[y, x] == IsFunction(version, x, y)
      requires forall x, y | Within(version, x, y) :: !IsFunction(version, x, y) ==> !modules[y, x]
      modifies modules
      ensures forall x, y | Within(version, x, y) && IsFunction(version, x, y) :: modules[y, x] == old(modules[y, x])
      ensures forall x, y | Within(version, x, y) && !IsFunction(version, x, y) ::
                x != 6 && modules[y, x] == DataModule(version, BytesToBits(codewords), x, y)
    {
      hide IsFunction, At, PairOf, StepOf, GetBit, BytesToBits, Rank, DataModule;
      var bitIndex := 0;
      var right := Size(version) - 1;
      ghost var p := 0;
      StepRanges(version);
      RankStarts(version);
      while right >= 1
        invariant 0 <= p <= Pairs(version)
        invariant var r := Size(version) - 1 - 2 * p; right == if r >= 6 then r else r - 1
        invariant Placed(codewords, p, 0) && UnchangedFunctions()
        invariant bitIndex == Min(Rank(version, p, 0), 8 * |codewords|)
        decreases right
      {
        if right == 6 {
          right := 5;
        }
        for vert := 0 to Size(version)
          invariant Placed(codewords, p, 2 * vert) && UnchangedFunctions()
          invariant bitIndex == Min(Rank(version, p, 2 * vert), 8 * |codewords|)
        {
          for j := 0 to 2
            invariant Placed(codewords, p, 2 * vert + j) && UnchangedFunctions()
            invariant bitIndex == Min(Rank(version, p, 2 * vert + j), 8 * |codewords|)
          {
            var x := right - j;
            var upward := (right + 1) / 2 % 2 == 0;
            var y := if upward then Size(version) - 1 - vert else vert;
            CurrentCell(version, p, right, vert, j);
            bitIndex := PlaceModule(codewords, bitIndex, x, y, p, 2 * vert + j);
          }
        }
        RankNextPair(version, p);
        right := right - 2;
        p := p + 1;
      }
      NoColumnSix(version);
    }

    /** One cell of the traversal: a data module takes the next bit while there is one. */
    method PlaceModule(codewords: seq<Byte>, bitIndex: nat, x: int, y: int, ghost p: nat, ghost q: nat)
      returns (next: nat)
      requires Valid() && p < Pairs(version) && q < Steps(version)
      requires Within(version, x, y) && x != 6 && At(version, p, q) == (x, y)
      requires PairOf(version, x) == p && StepOf(version, x, y) == q
      requires forall i, j | Within(version, i, j) :: isFunction[j, i] == IsFunction(version, i, j)
      requires Placed(codewords, p, q) && bitIndex == Min(Rank(version, p, q), 8 * |codewords|)
      modifies modules
      ensures Placed(codewords, p, q + 1) && UnchangedFunctions()
      ensures next == Min(Rank(version, p, q + 1), 8 * |codewords|)
    {
      hide IsFunction, At, PairOf, StepOf, GetBit, BytesToBits;
      next := bitIndex;
      forall i, j | Within(version, i, j) && i != 6 && PairOf(version, i) == p && StepOf(version, i, j) == q
        ensures i == x && j == y
      {
        EveryCellVisited(version, i, j);
      }
      if !isFunction[y, x] && bitIndex < |codewords| * 8 {
        BytesToBitsAt(codewords, bitIndex);
        modules[y, x] := GetBit(codewords[bitIndex / 8], 7 - bitIndex % 8);
        next := bitIndex + 1;
      }
    }

    /** Every data module before step `q` of pair `p` holds its value, the later ones are light. */
    ghost predicate Placed(codewords: seq<Byte>, p: nat, q: nat)
      requires Valid()
      reads modules
    {
      forall x, y | Within(version, x, y) && x != 6 && !IsFunction(version, x, y) ::
        modules[y, x] == (Earlier(PairOf(version, x), StepOf(version, x, y), p, q) &&
                          DataModule(version, BytesToBits(codewords), x, y))
    }

    twostate predicate UnchangedFunctions()
      requires Valid()
      reads modules
    {
      forall x, y | Within(version, x, y) && IsFunction(version, x, y) :: modules[y, x] == old(modules[y, x])
    }

    method MaskCondition(mask: Mask, x: nat, y: nat) returns (invert: bool)
      ensures invert == Inverts(mask, x, y)
    {
      invert := false;
      match mask
      case 0 => invert := (x + y) % 2 == 0;
      case 1 => invert := y % 2 == 0;
      case 2 => invert := x % 3 == 0;
      case 3 => invert := (x + y) % 3 == 0;
      case 4 => invert := (x / 3 + y / 2) % 2 == 0;
      case 5 => invert := x * y % 2 + x * y % 3 == 0;
      case 6 => invert := (x * y % 2 + x * y % 3) % 2 == 0;
      case _ => invert := ((x + y) % 2 + x * y % 3) % 2 == 0;
    }

    method ApplyMask(mask: Mask)
      requires Valid()
      requires forall x, y | Within(version, x, y) :: isFunction[y, x] == IsFunction(version, x, y)
      modifies modules
      ensures forall x, y | Within(version, x, y) ::
                modules[y, x] == (old(modules[y, x]) != (!IsFunction(version, x, y) && Inverts(mask, x, y)))
    {
      hide IsFunction, Inverts;
      for y := 0 to Size(version)
        invariant forall i, j | Within(version, i, j) ::
                    modules[j, i] ==
                    (old(modules[j, i]) != (j < y && !IsFunction(version, i, j) && Inverts(mask, i, j)))
      {
        for x := 0 to Size(version)
          invariant forall i, j | Within(version, i, j) ::
                      modules[j, i] == (old(modules[j, i]) != ((j < y || (j == y && i < x)) &&
                                                               !IsFunction(version, i, j) && Inverts(mask, i, j)))
        {
          var invert := MaskCondition(mask, x, y);
          if invert && !isFunction[y, x] {
            modules[y, x] := !modules[y, x];
          }
        }
      }
    }
  }

  lemma NoColumnSix(ver: Version)
    ensures forall y :: IsFunction(ver, 6, y)
  {
  }

  /** The cell that the loops reach is the one the traversal names. */
  lemma CurrentCell(ver: Version, p: nat, right: int, vert: nat, j: nat)
    requires p < Pairs(ver) && right == Right(ver, p) && vert < Size(ver) && j < 2
    ensures var x := right - j;
            var y := if (right + 1) / 2 % 2 == 0 then Size(ver) - 1 - vert else vert;
            && Within(ver, x, y) && x != 6 && At(ver, p, 2 * vert + j) == (x, y)
            && PairOf(ver, x) == p && StepOf(ver, x, y) == 2 * vert + j
  {
    StepsAreDistinct(ver, p, 2 * vert + j);
    assert (2 * vert + j) / 2 == vert && (2 * vert + j) % 2 == j;
  }

  lemma StepRanges(ver: Version)
    ensures forall x, y | Within(ver, x, y) && x != 6 ::
              0 <= PairOf(ver, x) < Pairs(ver) && 0 <= StepOf(ver, x, y) < Steps(ver)
  {
    hide PairOf, StepOf;
    forall x, y | Within(ver, x, y) && x != 6
      ensures 0 <= PairOf(ver, x) < Pairs(ver) && 0 <= StepOf(ver, x, y) < Steps(ver)
    {
      EveryCellVisited(ver, x, y);
    }
  }

  lemma RankStarts(ver: Version)
    ensures Rank(ver, 0, 0) == 0
  {
  }

  lemma RankNextPair(ver: Version, p: nat)
    ensures Rank(ver, p + 1, 0) == Rank(ver, p, Steps(ver))
  {
  }

  predicate AlignColour(ver: Version, x: int, y: int)
    requires IsAlign(ver, x, y)
  {
    AlignDark(x - Centre(ver, NearCentre(ver, x)), y - Centre(ver, NearCentre(ver, y)))
  }

  /** An alignment module of a pattern that comes before pattern (i, j). */
  predicate AlignBefore(ver: Version, i: int, j: int, x: int, y: int) {
    IsAlign(ver, x, y) && Earlier(NearCentre(ver, x), NearCentre(ver, y), i, j)
  }

  lemma CentreInside(ver: Version, i: nat)
    requires ver > 1 && i < NumAlign(ver)
    ensures 6 <= Centre(ver, i) <= Size(ver) - 7
  {
    if i > 0 {
      CentresOrdered(ver, 0, i);
    }
    if i < NumAlign(ver) - 1 {
      CentresOrdered(ver, i, NumAlign(ver) - 1);
    }
  }

  /** The first `n` format bits of the first copy and the first `m` of the second. */
  predicate FormatDrawn(ver: Version, n: int, m: int, x: int, y: int) {
    0 <= FormatIndex(ver, x, y) < if x <= 8 && y <= 8 then n else m
  }
}
