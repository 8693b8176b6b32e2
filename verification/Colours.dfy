/** The colours of the function patterns (sections 6.3, 7.9 and 7.10 of ISO/IEC 18004:2015). */
module Colours {
  import opened Numbers
  import opened Bits
  import opened Versions
  import opened FunctionPatterns

  type Mask = m: nat | m < 8

  // ---------------------------------------------------------------------------
  // Format and version information
  // ---------------------------------------------------------------------------

  function EclFormatBits(ecl: Ecl): (b: nat)
    ensures b < 4
  {
    match ecl
    case L => 1
    case M => 0
    case Q => 3
    case H => 2
  }

  function EclOfFormatBits(b: nat): Ecl {
    if b == 1 then L else if b == 0 then M else if b == 3 then Q else H
  }

  /** One round of the shift register of `width` bits with the given polynomial. */
  function CheckStep(rem: nat, width: nat, poly: nat): nat
    requires width > 0
  {
    Xor(rem * 2, Shr(rem, width - 1) * poly)
  }

  function CheckBits(data: nat, width: nat, poly: nat, rounds: nat): nat
    requires width > 0
  {
    if rounds == 0 then data else CheckStep(CheckBits(data, width, poly, rounds - 1), width, poly)
  }

  lemma ShrTop(x: nat, i: nat)
    requires Pow2(i) <= x < 2 * Pow2(i)
    ensures Shr(x, i) == 1
  {
    ShrDiv(x, i);
    DivUnique(x, Pow2(i), 1, x - Pow2(i));
  }

  /** If the top bit is set, the polynomial cancels it. */
  lemma ReduceStep(rem: nat, width: nat, poly: nat)
    requires width > 0 && Pow2(width - 1) <= rem < Pow2(width) && Pow2(width) <= poly < 2 * Pow2(width)
    ensures CheckStep(rem, width, poly) < Pow2(width)
  {
    hide Xor, Shr;
    ShrTop(rem, width - 1);
    ShrTop(rem * 2, width);
    ShrTop(poly, width);
    hide Pow2;
    XorShr(rem * 2, poly, width);
    XorSelf(1);
    ShrBelow(Xor(rem * 2, poly), width);
  }

  /** The register never overflows its width. */
  lemma {:induction false} CheckBitsBelow(data: nat, width: nat, poly: nat, rounds: nat)
    requires width > 0 && data < Pow2(width) && Pow2(width) <= poly < 2 * Pow2(width)
    ensures CheckBits(data, width, poly, rounds) < Pow2(width)
  {
    hide Xor, Shr;
    if rounds > 0 {
      CheckBitsBelow(data, width, poly, rounds - 1);
      var rem := CheckBits(data, width, poly, rounds - 1);
      hide CheckBits;
      if rem < Pow2(width - 1) {
        ShrBelow(rem, width - 1);
        XorZero(rem * 2);
      } else {
        ReduceStep(rem, width, poly);
      }
    }
  }

  function FormatData(ecl: Ecl, mask: Mask): nat {
    EclFormatBits(ecl) * 8 + mask
  }

  const FORMAT_MASK: nat := 0x5412

  /** Level and mask, ten check bits, masked. */
  function FormatBits(ecl: Ecl, mask: Mask): nat {
    var data := FormatData(ecl, mask);
    Xor(data * 1024 + CheckBits(data, 10, 0x537, 10), FORMAT_MASK)
  }

  /** The version and twelve check bits. */
  function VersionBits(ver: Version): nat {
    ver * 4096 + CheckBits(ver, 12, 0x1f25, 12)
  }

  lemma PowersOfTwo()
    ensures Pow2(10) == 1024 && Pow2(12) == 4096 && Pow2(15) == 32768 && Pow2(18) == 262144
  {
    assert Pow2(5) == 32;
    assert Pow2(10) == 1024;
    assert Pow2(15) == 32768;
  }

  lemma VersionBitsBelow(ver: Version)
    ensures CheckBits(ver, 12, 0x1f25, 12) < 4096
    ensures VersionBits(ver) < 262144 && VersionBits(ver) / 4096 == ver
  {
    hide CheckBits;
    PowersOfTwo();
    hide Pow2;
    CheckBitsBelow(ver, 12, 0x1f25, 12);
  }

  lemma FormatBitsBelow(ecl: Ecl, mask: Mask)
    ensures CheckBits(FormatData(ecl, mask), 10, 0x537, 10) < 1024
    ensures FormatBits(ecl, mask) < 32768
  {
    hide CheckBits, Xor;
    PowersOfTwo();
    hide Pow2;
    var data := FormatData(ecl, mask);
    CheckBitsBelow(data, 10, 0x537, 10);
    XorBelow(data * 1024 + CheckBits(data, 10, 0x537, 10), FORMAT_MASK, 15);
  }

  /** What a reader makes of the fifteen format bits. */
  function FormatMask(bits: nat): Mask {
    Xor(bits, FORMAT_MASK) / 1024 % 8
  }

  function FormatEcl(bits: nat): Ecl {
    EclOfFormatBits(Xor(bits, FORMAT_MASK) / 1024 / 8)
  }

  /** Level and mask survive the check bits and the masking. */
  lemma FormatRoundTrip(ecl: Ecl, mask: Mask)
    ensures FormatMask(FormatBits(ecl, mask)) == mask && FormatEcl(FormatBits(ecl, mask)) == ecl
  {
    hide CheckBits, Xor;
    FormatBitsBelow(ecl, mask);
    var data := FormatData(ecl, mask);
    var word := data * 1024 + CheckBits(data, 10, 0x537, 10);
    XorCancels(word, FORMAT_MASK);
    assert word / 1024 == data;
  }

  // ---------------------------------------------------------------------------
  // Where the format bits stand
  // ---------------------------------------------------------------------------

  /** The first copy of format bit `i`, around the top left finder pattern. */
  function FormatCell(i: nat): (int, int) {
    if i <= 5 then (8, i)
    else if i == 6 then (8, 7)
    else if i == 7 then (8, 8)
    else if i == 8 then (7, 8)
    else (14 - i, 8)
  }

  /** The second copy, split between the other two finder patterns. */
  function FormatCopy(size: nat, i: nat): (int, int) {
    if i < 8 then (size - 1 - i, 8) else (8, size - 15 + i)
  }

  /** Bit `i` of the version word, beside the top right finder pattern or, transposed, above the bottom left one. */
  function VersionCell(size: nat, transposed: bool, i: nat): (int, int) {
    var a, b := size - 11 + i % 3, i / 3;
    if transposed then (b, a) else (a, b)
  }

  /** Which format bit stands at a cell: 15 for the module that is always dark, -1 for none. */
  function FormatIndex(ver: Version, x: int, y: int): int {
    if x == 8 && 0 <= y <= 5 then y
    else if x == 8 && y == 7 then 6
    else if x == 8 && y == 8 then 7
    else if x == 7 && y == 8 then 8
    else if y == 8 && 0 <= x <= 5 then 14 - x
    else if y == 8 && Size(ver) - 8 <= x < Size(ver) then Size(ver) - 1 - x
    else if x == 8 && Size(ver) - 7 <= y < Size(ver) then y - Size(ver) + 15
    else if x == 8 && y == Size(ver) - 8 then 15
    else -1
  }

  function VersionIndex(ver: Version, x: int, y: int): int {
    if ver < 7 then -1
    else if Size(ver) - 11 <= x < Size(ver) - 8 && 0 <= y < 6 then 3 * y + x - (Size(ver) - 11)
    else if Size(ver) - 11 <= y < Size(ver) - 8 && 0 <= x < 6 then 3 * x + y - (Size(ver) - 11)
    else -1
  }

  // ---------------------------------------------------------------------------
  // Colours
  // ---------------------------------------------------------------------------

  /** Dark square, light ring, dark ring, light separator around the centre. */
  predicate FinderDark(dx: int, dy: int) {
    var dist := Max(Abs(dx), Abs(dy));
    dist != 2 && dist != 4
  }

  predicate AlignDark(dx: int, dy: int) {
    Max(Abs(dx), Abs(dy)) != 1
  }

  predicate NearFinder(x: int, y: int, cx: int, cy: int) {
    Abs(x - cx) <= 4 && Abs(y - cy) <= 4
  }

  /** Timing lines under finder patterns. */
  predicate FinderOrTimingDark(ver: Version, x: int, y: int) {
    var far := Size(ver) - 4;
    if NearFinder(x, y, 3, far) then FinderDark(x - 3, y - far)
    else if NearFinder(x, y, far, 3) then FinderDark(x - far, y - 3)
    else if NearFinder(x, y, 3, 3) then FinderDark(x - 3, y - 3)
    else if y == 6 then x % 2 == 0
    else y % 2 == 0
  }

  /** Alignment patterns over that. */
  predicate BaseDark(ver: Version, x: int, y: int) {
    if IsAlign(ver, x, y) then
      AlignDark(x - Centre(ver, NearCentre(ver, x)), y - Centre(ver, NearCentre(ver, y)))
    else FinderOrTimingDark(ver, x, y)
  }

  predicate FormatDark(ecl: Ecl, mask: Mask, i: nat) {
    i == 15 || GetBit(FormatBits(ecl, mask), i)
  }

  /** The colour of a function module: version information over format information over the rest. */
  predicate FunctionDark(ver: Version, ecl: Ecl, mask: Mask, x: int, y: int) {
    if VersionIndex(ver, x, y) >= 0 then GetBit(VersionBits(ver), VersionIndex(ver, x, y))
    else if FormatIndex(ver, x, y) >= 0 then FormatDark(ecl, mask, FormatIndex(ver, x, y))
    else BaseDark(ver, x, y)
  }

  // ---------------------------------------------------------------------------
  // Masks
  // ---------------------------------------------------------------------------

  /** Whether a mask inverts a data module (table 10 of ISO/IEC 18004:2015). */
  predicate Inverts(mask: Mask, x: nat, y: nat) {
    match mask
    case 0 => (x + y) % 2 == 0
    case 1 => y % 2 == 0
    case 2 => x % 3 == 0
    case 3 => (x + y) % 3 == 0
    case 4 => (x / 3 + y / 2) % 2 == 0
    case 5 => x * y % 2 + x * y % 3 == 0
    case 6 => (x * y % 2 + x * y % 3) % 2 == 0
    case _ => ((x + y) % 2 + x * y % 3) % 2 == 0
  }

  /** Masks 0 to 3 show a chessboard, whole rows, whole columns and diagonals. */
  lemma LineMasks(x: nat, y: nat)
    ensures Inverts(0, 0, 0) && Inverts(0, x + 1, y) == Inverts(0, x, y + 1) == !Inverts(0, x, y)
    ensures Inverts(1, 0, 0) && Inverts(1, x + 1, y) == Inverts(1, x, y) == !Inverts(1, x, y + 1)
    ensures Inverts(2, 0, 0) && Inverts(2, x, y + 1) == Inverts(2, x, y)
    ensures Inverts(2, x, y) ==> !Inverts(2, x + 1, y) && !Inverts(2, x + 2, y) && Inverts(2, x + 3, y)
    ensures Inverts(3, x, 0) == Inverts(2, x, 0) && Inverts(3, x + 1, y) == Inverts(3, x, y + 1)
  {
  }

  /** Mask 4 is a chessboard of fields three modules wide and two high. */
  lemma BlockMask(x: nat, y: nat, dx: nat, dy: nat)
    requires dx < 3 && dy < 2
    ensures Inverts(4, 3 * x + dx, 2 * y + dy) == Inverts(0, x, y)
  {
    assert (3 * x + dx) / 3 == x && (2 * y + dy) / 2 == y;
  }

  /** Masks 5 to 7 depend on the product of the coordinates; mask 7 is the chessboard inverted at a third of it. */
  lemma ProductMasks(x: nat, y: nat)
    ensures Inverts(5, x, y) <==> x * y % 6 == 0
    ensures Inverts(6, x, y) <==> x * y % 6 < 3
    ensures Inverts(7, x, y) != Inverts(0, x, y) <==> x * y % 3 == 1
  {
    SixthsOf(x * y);
    assert Inverts(7, x, y) <==> ((x + y) % 2 + x * y % 3) % 2 == 0;
  }

  lemma SixthsOf(t: nat)
    ensures t % 2 + t % 3 == 0 <==> t % 6 == 0
    ensures (t % 2 + t % 3) % 2 == 0 <==> t % 6 < 3
  {
    var q, half, third := t / 6, t % 6 / 2, t % 6 / 3;
    HalfRemainder(3 * q + half, t % 6 - 2 * half);
    ThirdRemainder(2 * q + third, t % 6 - 3 * third);
  }

  lemma HalfRemainder(a: nat, b: nat)
    requires b < 2
    ensures (2 * a + b) % 2 == b
  {
  }

  lemma ThirdRemainder(a: nat, b: nat)
    requires b < 3
    ensures (3 * a + b) % 3 == b
  {
  }

  /** The codes of the levels, and where the format word has its fields. */
  lemma FormatFields(ecl: Ecl, mask: Mask)
    ensures Xor(FormatBits(ecl, mask), 0x5412) / 1024 ==
            mask + match ecl case L => 8 case M => 0 case Q => 24 case H => 16
  {
    hide CheckBits, Xor;
    FormatBitsBelow(ecl, mask);
    var data := FormatData(ecl, mask);
    var word := data * 1024 + CheckBits(data, 10, 0x537, 10);
    XorCancels(word, FORMAT_MASK);
    assert word / 1024 == data;
  }

  /** Level M and mask 0 leave the format word as the fixed mask alone. */
  lemma BlankFormat()
    ensures FormatBits(M, 0) == 0x5412
  {
    BlankCheckBits(10, 0x537, 10);
    hide CheckBits, Xor;
    XorZero(FORMAT_MASK);
  }

  lemma {:induction false} BlankCheckBits(width: nat, poly: nat, rounds: nat)
    requires width > 0
    ensures CheckBits(0, width, poly, rounds) == 0
  {
    if rounds > 0 {
      BlankCheckBits(width, poly, rounds - 1);
      ShrBelow(0, width - 1);
      XorZero(0);
    }
  }
}
