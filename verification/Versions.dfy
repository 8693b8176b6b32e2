/** Sizes and capacities of the 40 versions (tables 1 and 9 of ISO/IEC 18004:2015). */
module Versions {

  datatype Ecl = L | M | Q | H

  function EclIndex(ecl: Ecl): nat {
    match ecl
    case L => 0
    case M => 1
    case Q => 2
    case H => 3
  }

  // Indexed by error correction level and version; the entry of version 0 is a placeholder. Each row is
  // kept in lines of eight, so version `ver` is found at [ver / 8][ver % 8].
  const ECC_CODEWORDS_PER_BLOCK: seq<seq<seq<int>>> := [
    [[-1, 7, 10, 15, 20, 26, 18, 20], [24, 30, 18, 20, 24, 26, 30, 22],
     [24, 28, 30, 28, 28, 28, 28, 30], [30, 26, 28, 30, 30, 30, 30, 30],
     [30, 30, 30, 30, 30, 30, 30, 30], [30]],
    [[-1, 10, 16, 26, 18, 24, 16, 18], [22, 22, 26, 30, 22, 22, 24, 24],
     [28, 28, 26, 26, 26, 26, 28, 28], [28, 28, 28, 28, 28, 28, 28, 28],
     [28, 28, 28, 28, 28, 28, 28, 28], [28]],
    [[-1, 13, 22, 18, 26, 18, 24, 18], [22, 20, 24, 28, 26, 24, 20, 30],
     [24, 28, 28, 26, 30, 28, 30, 30], [30, 30, 28, 30, 30, 30, 30, 30],
     [30, 30, 30, 30, 30, 30, 30, 30], [30]],
    [[-1, 17, 28, 22, 16, 22, 28, 26], [26, 24, 28, 24, 28, 22, 24, 24],
     [30, 28, 28, 26, 28, 30, 24, 30], [30, 30, 30, 30, 30, 30, 30, 30],
     [30, 30, 30, 30, 30, 30, 30, 30], [30]]
  ]

  const NUM_ERROR_CORRECTION_BLOCKS: seq<seq<seq<int>>> := [
    [[-1, 1, 1, 1, 1, 1, 2, 2], [2, 2, 4, 4, 4, 4, 4, 6],
     [6, 6, 6, 7, 8, 8, 9, 9], [10, 12, 12, 12, 13, 14, 15, 16],
     [17, 18, 19, 19, 20, 21, 22, 24], [25]],
    [[-1, 1, 1, 1, 2, 2, 4, 4], [4, 5, 5, 5, 8, 9, 9, 10],
     [10, 11, 13, 14, 16, 17, 17, 18], [20, 21, 23, 25, 26, 28, 29, 31],
     [33, 35, 37, 38, 40, 43, 45, 47], [49]],
    [[-1, 1, 1, 2, 2, 4, 4, 6], [6, 8, 8, 8, 10, 12, 16, 12],
     [17, 16, 18, 21, 20, 23, 23, 25], [27, 29, 34, 34, 35, 38, 40, 43],
     [45, 48, 51, 53, 56, 59, 62, 65], [68]],
    [[-1, 1, 1, 2, 4, 4, 4, 5], [6, 8, 8, 11, 11, 16, 16, 18],
     [16, 19, 21, 25, 25, 25, 34, 30], [32, 35, 37, 40, 42, 45, 48, 51],
     [54, 57, 60, 63, 66, 70, 74, 77], [81]]
  ]

  type Version = v: nat | 1 <= v <= 40 witness 1

  function NumAlign(ver: Version): nat {
    ver / 7 + 2
  }

  function NumRawDataModules(ver: Version): int {
    var result := (16 * ver + 128) * ver + 64;
    if ver >= 2 then
      var numAlign := NumAlign(ver);
      result - ((25 * numAlign - 10) * numAlign - 55) - (if ver >= 7 then 36 else 0)
    else result
  }

  function EccLen(ver: Version, ecl: Ecl): int {
    ECC_CODEWORDS_PER_BLOCK[EclIndex(ecl)][ver / 8][ver % 8]
  }

  function NumBlocks(ver: Version, ecl: Ecl): int {
    NUM_ERROR_CORRECTION_BLOCKS[EclIndex(ecl)][ver / 8][ver % 8]
  }

  function RawCodewords(ver: Version): int {
    NumRawDataModules(ver) / 8
  }

  function NumDataCodewords(ver: Version, ecl: Ecl): int {
    RawCodewords(ver) - EccLen(ver, ecl) * NumBlocks(ver, ecl)
  }

  /** Bits of the byte count. */
  function CountBits(ver: Version): nat {
    if ver <= 9 then 8 else 16
  }

  /** Whether the header and `n` bytes fit. */
  predicate Fits(n: nat, ver: Version, ecl: Ecl) {
    4 + CountBits(ver) + n * 8 <= NumDataCodewords(ver, ecl) * 8
  }

  method ChooseVersion(n: nat, ecl: Ecl) returns (version: nat)
    ensures 1 <= version <= 41
    ensures version <= 40 ==> Fits(n, version, ecl)
    ensures forall v: Version :: v < version ==> !Fits(n, v, ecl)
    ensures forall v: Version ::
              8 * NumDataCodewords(v, ecl) >= (if v <= 9 then 12 else 20) + 8 * n ==> version <= v
  {
    hide NumDataCodewords;
    version := 1;
    while version <= 40
      invariant 1 <= version <= 41
      invariant forall v: Version :: v < version ==> !Fits(n, v, ecl)
      invariant forall v: Version ::
                  v < version ==> 8 * NumDataCodewords(v, ecl) < (if v <= 9 then 12 else 20) + 8 * n
    {
      var ccBits := if version <= 9 then 8 else 16;
      var needed := 4 + ccBits + n * 8;
      if needed <= NumDataCodewords(version, ecl) * 8 {
        break;
      }
      version := version + 1;
    }
  }

  /** The most bytes that a symbol of a level holds (version 40 in table 7 of ISO/IEC 18004:2015). */
  function MaxBytes(ecl: Ecl): nat {
    match ecl
    case L => 2953
    case M => 2331
    case Q => 1663
    case H => 1273
  }

  predicate SoundValues(ver: Version, most: int, raw: int, e: int, b: int) {
    && 7 <= e <= 30
    && 1 <= b <= 81
    && (e + 1) * b <= raw < 255 * b
    && raw - e * b < (if ver <= 9 then 256 else 4096)
    && (if ver == 40 then raw - e * b == most + 3 else raw - e * b <= most + 2)
  }

  /** What the encoder relies on in one entry of the tables. */
  predicate Sound(ver: Version, ecl: Ecl) {
    SoundValues(ver, MaxBytes(ecl), RawCodewords(ver), EccLen(ver, ecl), NumBlocks(ver, ecl))
  }

  lemma Entry(ver: Version, raw: int, eL: int, bL: int, eM: int, bM: int, eQ: int, bQ: int, eH: int, bH: int, ecl: Ecl)
    requires RawCodewords(ver) == raw
    requires EccLen(ver, L) == eL && NumBlocks(ver, L) == bL && SoundValues(ver, 2953, raw, eL, bL)
    requires EccLen(ver, M) == eM && NumBlocks(ver, M) == bM && SoundValues(ver, 2331, raw, eM, bM)
    requires EccLen(ver, Q) == eQ && NumBlocks(ver, Q) == bQ && SoundValues(ver, 1663, raw, eQ, bQ)
    requires EccLen(ver, H) == eH && NumBlocks(ver, H) == bH && SoundValues(ver, 1273, raw, eH, bH)
    ensures Sound(ver, ecl)
  {
    hide EccLen, NumBlocks, RawCodewords;
  }

  lemma Sound1To4(ver: Version, ecl: Ecl)
    requires 1 <= ver <= 4
    ensures Sound(ver, ecl)
  {
    hide Sound;
    Entry(1, 26, 7, 1, 10, 1, 13, 1, 17, 1, ecl);
    Entry(2, 44, 10, 1, 16, 1, 22, 1, 28, 1, ecl);
    Entry(3, 70, 15, 1, 26, 1, 18, 2, 22, 2, ecl);
    Entry(4, 100, 20, 1, 18, 2, 26, 2, 16, 4, ecl);
  }

  lemma Sound5To8(ver: Version, ecl: Ecl)
    requires 5 <= ver <= 8
    ensures Sound(ver, ecl)
  {
    hide Sound;
    Entry(5, 134, 26, 1, 24, 2, 18, 4, 22, 4, ecl);
    Entry(6, 172, 18, 2, 16, 4, 24, 4, 28, 4, ecl);
    Entry(7, 196, 20, 2, 18, 4, 18, 6, 26, 5, ecl);
    Entry(8, 242, 24, 2, 22, 4, 22, 6, 26, 6, ecl);
  }

  lemma Sound9To12(ver: Version, ecl: Ecl)
    requires 9 <= ver <= 12
    ensures Sound(ver, ecl)
  {
    hide Sound;
    Entry(9, 292, 30, 2, 22, 5, 20, 8, 24, 8, ecl);
    Entry(10, 346, 18, 4, 26, 5, 24, 8, 28, 8, ecl);
    Entry(11, 404, 20, 4, 30, 5, 28, 8, 24, 11, ecl);
    Entry(12, 466, 24, 4, 22, 8, 26, 10, 28, 11, ecl);
  }

  lemma Sound13To16(ver: Version, ecl: Ecl)
    requires 13 <= ver <= 16
    ensures Sound(ver, ecl)
  {
    hide Sound;
    Entry(13, 532, 26, 4, 22, 9, 24, 12, 22, 16, ecl);
    Entry(14, 581, 30, 4, 24, 9, 20, 16, 24, 16, ecl);
    Entry(15, 655, 22, 6, 24, 10, 30, 12, 24, 18, ecl);
    Entry(16, 733, 24, 6, 28, 10, 24, 17, 30, 16, ecl);
  }

  lemma Sound17To20(ver: Version, ecl: Ecl)
    requires 17 <= ver <= 20
    ensures Sound(ver, ecl)
  {
    hide Sound;
    Entry(17, 815, 28, 6, 28, 11, 28, 16, 28, 19, ecl);
    Entry(18, 901, 30, 6, 26, 13, 28, 18, 28, 21, ecl);
    Entry(19, 991, 28, 7, 26, 14, 26, 21, 26, 25, ecl);
    Entry(20, 1085, 28, 8, 26, 16, 30, 20, 28, 25, ecl);
  }

  lemma Sound21To24(ver: Version, ecl: Ecl)
    requires 21 <= ver <= 24
    ensures Sound(ver, ecl)
  {
    hide Sound;
    Entry(21, 1156, 28, 8, 26, 17, 28, 23, 30, 25, ecl);
    Entry(22, 1258, 28, 9, 28, 17, 30, 23, 24, 34, ecl);
    Entry(23, 1364, 30, 9, 28, 18, 30, 25, 30, 30, ecl);
    Entry(24, 1474, 30, 10, 28, 20, 30, 27, 30, 32, ecl);
  }

  lemma Sound25To28(ver: Version, ecl: Ecl)
    requires 25 <= ver <= 28
    ensures Sound(ver, ecl)
  {
    hide Sound;
    Entry(25, 1588, 26, 12, 28, 21, 30, 29, 30, 35, ecl);
    Entry(26, 1706, 28, 12, 28, 23, 28, 34, 30, 37, ecl);
    Entry(27, 1828, 30, 12, 28, 25, 30, 34, 30, 40, ecl);
    Entry(28, 1921, 30, 13, 28, 26, 30, 35, 30, 42, ecl);
  }

  lemma Sound29To32(ver: Version, ecl: Ecl)
    requires 29 <= ver <= 32
    ensures Sound(ver, ecl)
  {
    hide Sound;
    Entry(29, 2051, 30, 14, 28, 28, 30, 38, 30, 45, ecl);
    Entry(30, 2185, 30, 15, 28, 29, 30, 40, 30, 48, ecl);
    Entry(31, 2323, 30, 16, 28, 31, 30, 43, 30, 51, ecl);
    Entry(32, 2465, 30, 17, 28, 33, 30, 45, 30, 54, ecl);
  }

  lemma Sound33To36(ver: Version, ecl: Ecl)
    requires 33 <= ver <= 36
    ensures Sound(ver, ecl)
  {
    hide Sound;
    Entry(33, 2611, 30, 18, 28, 35, 30, 48, 30, 57, ecl);
    Entry(34, 2761, 30, 19, 28, 37, 30, 51, 30, 60, ecl);
    Entry(35, 2876, 30, 19, 28, 38, 30, 53, 30, 63, ecl);
    Entry(36, 3034, 30, 20, 28, 40, 30, 56, 30, 66, ecl);
  }

  lemma Sound37To40(ver: Version, ecl: Ecl)
    requires 37 <= ver <= 40
    ensures Sound(ver, ecl)
  {
    hide Sound;
    Entry(37, 3196, 30, 21, 28, 43, 30, 59, 30, 70, ecl);
    Entry(38, 3362, 30, 22, 28, 45, 30, 62, 30, 74, ecl);
    Entry(39, 3532, 30, 24, 28, 47, 30, 65, 30, 77, ecl);
    Entry(40, 3706, 30, 25, 28, 49, 30, 68, 30, 81, ecl);
  }

  /**
   * In all 160 entries every block has at least one data byte and at most 255 bytes, and the data bytes are
   * few enough for the byte count field.
   */
  lemma TablesAreSound(ver: Version, ecl: Ecl)
    ensures Sound(ver, ecl)
  {
    hide Sound;
    if ver <= 4 {
      Sound1To4(ver, ecl);
    } else if ver <= 8 {
      Sound5To8(ver, ecl);
    } else if ver <= 12 {
      Sound9To12(ver, ecl);
    } else if ver <= 16 {
      Sound13To16(ver, ecl);
    } else if ver <= 20 {
      Sound17To20(ver, ecl);
    } else if ver <= 24 {
      Sound21To24(ver, ecl);
    } else if ver <= 28 {
      Sound25To28(ver, ecl);
    } else if ver <= 32 {
      Sound29To32(ver, ecl);
    } else if ver <= 36 {
      Sound33To36(ver, ecl);
    } else {
      Sound37To40(ver, ecl);
    }
  }

  /** Some version holds `n` bytes exactly if version 40 does, that is up to a known number for each level. */
  lemma LargestData(n: nat, ecl: Ecl)
    ensures (exists v: Version :: Fits(n, v, ecl)) <==> n <= MaxBytes(ecl)
    ensures Fits(n, 40, ecl) <==> n <= MaxBytes(ecl)
  {
    hide EccLen, NumBlocks, RawCodewords, MaxBytes;
    var last: Version := 40;
    TablesAreSound(last, ecl);
    assert Fits(n, last, ecl) <==> n <= MaxBytes(ecl);
    forall v: Version
      ensures Fits(n, v, ecl) ==> n <= MaxBytes(ecl)
    {
      TablesAreSound(v, ecl);
    }
  }
}
