/** Packing the input bytes into data codewords (section 7.4 of ISO/IEC 18004:2015). */
module BitStream {
  import opened Options
  import opened Bits
  import opened Versions

  class BitBuffer {
    var bits: seq<bool>

    constructor ()
      ensures bits == []
    {
      bits := [];
    }

    method Append(val: nat, len: nat)
      modifies this
      ensures bits == old(bits) + ToBits(val, len)
    {
      var i: int := len - 1;
      while i >= 0
        invariant -1 <= i < len
        invariant bits == old(bits) + ToBits(Shr(val, i + 1), len - 1 - i)
      {
        ShrAdd(val, i, 1);
        assert Shr(Shr(val, i), 1) == Shr(val, i) / 2;
        bits := bits + [GetBit(val, i)];
        i := i - 1;
      }
    }
  }

  // ---------------------------------------------------------------------------
  // Bytes and bits
  // ---------------------------------------------------------------------------

  function BytesToBits(bytes: seq<Byte>): (s: seq<bool>)
    ensures |s| == 8 * |bytes|
  {
    if bytes == [] then [] else BytesToBits(bytes[..|bytes| - 1]) + ToBits(bytes[|bytes| - 1], 8)
  }

  lemma FromBitsByte(s: seq<bool>)
    requires |s| == 8
    ensures FromBits(s) < 256
  {
    ToFromBits(s);
    assert Pow2(8) == 256;
  }

  function BitsToBytes(s: seq<bool>): (bytes: seq<Byte>)
    requires |s| % 8 == 0
    ensures |bytes| == |s| / 8
  {
    if s == [] then []
    else
      var n := |s| - 8;
      FromBitsByte(s[n..]);
      BitsToBytes(s[..n]) + [FromBits(s[n..])]
  }

  lemma ByteBits(b: Byte)
    ensures FromBits(ToBits(b, 8)) == b
  {
    assert Pow2(8) == 256;
    FromToBits(b, 8);
  }

  lemma {:induction false} BytesBitsBytes(bytes: seq<Byte>)
    ensures BitsToBytes(BytesToBits(bytes)) == bytes
  {
    hide ToBits, FromBits;
    if bytes != [] {
      var n := |bytes| - 1;
      BytesBitsBytes(bytes[..n]);
      var s := BytesToBits(bytes);
      assert s[..8 * n] == BytesToBits(bytes[..n]) && s[8 * n..] == ToBits(bytes[n], 8);
      ByteBits(bytes[n]);
    }
  }

  lemma BytesToBitsSnoc(bytes: seq<Byte>, k: nat)
    requires k < |bytes|
    ensures BytesToBits(bytes[..k + 1]) == BytesToBits(bytes[..k]) + ToBits(bytes[k], 8)
  {
    hide ToBits;
    assert bytes[..k + 1][..k] == bytes[..k];
  }

  lemma ByteOfBits(bytes: seq<Byte>, s: seq<bool>)
    requires |s| == 8
    ensures FromBits(s) < 256
    ensures BytesToBits(bytes + [FromBits(s)]) == BytesToBits(bytes) + s
  {
    FromBitsByte(s);
    ToFromBits(s);
    hide ToBits, FromBits;
    var longer: seq<Byte> := bytes + [FromBits(s)];
    assert longer[..|bytes|] == bytes;
  }

  lemma LastByte(s: seq<bool>)
    requires |s| % 8 == 0 && s != []
    ensures FromBits(s[|s| - 8..]) < 256
    ensures BitsToBytes(s) == BitsToBytes(s[..|s| - 8]) + [FromBits(s[|s| - 8..])]
  {
    hide FromBits;
    FromBitsByte(s[|s| - 8..]);
  }

  lemma {:induction false} BitsBytesBits(s: seq<bool>)
    requires |s| % 8 == 0
    ensures BytesToBits(BitsToBytes(s)) == s
  {
    hide FromBits, ToBits, BytesToBits, BitsToBytes;
    if s == [] {
      NoBits();
    } else {
      var head, last := s[..|s| - 8], s[|s| - 8..];
      assert head + last == s;
      BitsBytesBits(head);
      LastByte(s);
      ByteOfBits(BitsToBytes(head), last);
    }
  }

  lemma NoBits()
    ensures BytesToBits(BitsToBytes([])) == []
  {
  }

  lemma {:induction false} BytesToBitsAt(bytes: seq<Byte>, k: nat)
    requires k < 8 * |bytes|
    ensures BytesToBits(bytes)[k] == GetBit(bytes[k / 8], 7 - k % 8)
  {
    hide ToBits, GetBit;
    var n := |bytes| - 1;
    if k < 8 * n {
      BytesToBitsAt(bytes[..n], k);
    } else {
      ToBitsAt(bytes[n], 8, k - 8 * n);
    }
  }

  lemma {:induction false} BytesToBitsSplit(a: seq<Byte>, b: seq<Byte>)
    ensures BytesToBits(a + b) == BytesToBits(a) + BytesToBits(b)
  {
    hide ToBits;
    if b == [] {
      assert a + b == a;
    } else {
      var n := |b| - 1;
      BytesToBitsSplit(a, b[..n]);
      assert (a + b)[..|a + b| - 1] == a + b[..n];
    }
  }

  // ---------------------------------------------------------------------------
  // The bit stream
  // ---------------------------------------------------------------------------

  /** Byte mode, the byte count, the bytes. */
  function Content(bytes: seq<Byte>, ver: Version): (s: seq<bool>)
    ensures |s| == 4 + CountBits(ver) + 8 * |bytes|
  {
    ToBits(4, 4) + ToBits(|bytes|, CountBits(ver)) + BytesToBits(bytes)
  }

  /** The pad bytes 0xEC and 0x11 in turn. */
  function Padding(n: nat): (p: seq<Byte>)
    ensures |p| == n
  {
    seq(n, i => if i % 2 == 0 then 0xec else 0x11)
  }

  /** What a reader makes of a bit stream. */
  function ParseBits(s: seq<bool>, ver: Version): Option<seq<Byte>> {
    var start := 4 + CountBits(ver);
    if |s| < start || FromBits(s[..4]) != 4 then None
    else ReadBytes(s[start..], FromBits(s[4..start]))
  }

  function ReadBytes(s: seq<bool>, count: nat): Option<seq<Byte>> {
    if 8 * count > |s| then None else Some(BitsToBytes(s[..8 * count]))
  }

  /** What a reader makes of the data codewords. */
  function Parse(codewords: seq<Byte>, ver: Version): Option<seq<Byte>> {
    ParseBits(BytesToBits(codewords), ver)
  }

  lemma FitsByteCount(n: nat, ver: Version, ecl: Ecl)
    requires Fits(n, ver, ecl)
    ensures n < Pow2(CountBits(ver))
  {
    TablesAreSound(ver, ecl);
    assert Pow2(8) == 256;
    Pow2Sixteen();
  }

  lemma Pow2Sixteen()
    ensures Pow2(16) == 65536
  {
    assert Pow2(8) == 256;
    assert Pow2(12) == 4096;
  }

  lemma ParseSegments(mode: seq<bool>, count: seq<bool>, data: seq<bool>, rest: seq<bool>, ver: Version)
    requires |mode| == 4 && |count| == CountBits(ver) && |data| == 8 * FromBits(count)
    requires FromBits(mode) == 4
    ensures ParseBits(mode + count + data + rest, ver) == Some(BitsToBytes(data))
  {
    hide FromBits, BitsToBytes;
    var s := mode + count + data + rest;
    var start := 4 + CountBits(ver);
    assert s[..4] == mode;
    assert s[4..start] == count;
    assert s[start..][..|data|] == data;
  }

  /** Whatever follows the content, a reader recovers the bytes. */
  lemma ParseContent(bytes: seq<Byte>, ver: Version, ecl: Ecl, rest: seq<bool>)
    requires Fits(|bytes|, ver, ecl)
    ensures ParseBits(Content(bytes, ver) + rest, ver) == Some(bytes)
  {
    FitsByteCount(|bytes|, ver, ecl);
    hide Fits, Pow2, ToBits, BytesToBits, BitsToBytes, FromBits, ParseBits;
    FromToBits(|bytes|, CountBits(ver));
    ModeBits();
    BytesBitsBytes(bytes);
    ParseSegments(ToBits(4, 4), ToBits(|bytes|, CountBits(ver)), BytesToBits(bytes), rest, ver);
  }

  /** Only bytes that fit can be read from the data codewords of a version. */
  lemma ParsedFits(codewords: seq<Byte>, ver: Version, ecl: Ecl, bytes: seq<Byte>)
    requires |codewords| == NumDataCodewords(ver, ecl) && Parse(codewords, ver) == Some(bytes)
    ensures Fits(|bytes|, ver, ecl)
  {
    hide BytesToBits, BitsToBytes, FromBits, NumDataCodewords;
    var s, start := BytesToBits(codewords), 4 + CountBits(ver);
    assert |s[start..]| >= 8 * FromBits(s[4..start]);
  }

  lemma ModeBits()
    ensures FromBits(ToBits(4, 4)) == 4
  {
    assert Pow2(4) == 16;
    FromToBits(4, 4);
  }

  method AppendContent(bb: BitBuffer, bytes: seq<Byte>, version: Version)
    requires bb.bits == []
    modifies bb
    ensures bb.bits == Content(bytes, version)
  {
    hide ToBits, BytesToBits;
    var ccBits := if version <= 9 then 8 else 16;
    bb.Append(4, 4);
    bb.Append(|bytes|, ccBits);
    ghost var header := bb.bits;
    NoBytes(bytes);
    for k := 0 to |bytes|
      invariant bb.bits == header + BytesToBits(bytes[..k])
    {
      bb.Append(bytes[k], 8);
      BytesToBitsSnoc(bytes, k);
    }
    assert bytes[..|bytes|] == bytes;
  }

  lemma NoBytes(bytes: seq<Byte>)
    ensures BytesToBits(bytes[..0]) == []
  {
  }

  method AppendPadBytes(bb: BitBuffer, capacity: int)
    requires |bb.bits| <= capacity && |bb.bits| % 8 == capacity % 8 == 0
    modifies bb
    ensures bb.bits == old(bb.bits) + BytesToBits(Padding((capacity - |old(bb.bits)|) / 8))
  {
    hide ToBits, BytesToBits, Toggle;
    ghost var prefix, n := bb.bits, 0;
    var pad: Byte := 0xec;
    NoBytes(Padding(0));
    assert Padding(0) == Padding(0)[..0];
    while |bb.bits| < capacity
      invariant |bb.bits| == |prefix| + 8 * n <= capacity
      invariant pad == if n % 2 == 0 then 0xec else 0x11
      invariant bb.bits == prefix + BytesToBits(Padding(n))
    {
      BytesToBitsSnoc(Padding(n + 1), n);
      assert Padding(n + 1)[..n] == Padding(n) && Padding(n + 1)[..n + 1] == Padding(n + 1);
      bb.Append(pad, 8);
      PadToggles();
      pad := Toggle(pad);
      n := n + 1;
    }
  }

  /** The header leaves four bits of the last byte, and there is room for them. */
  lemma ContentLength(bytes: seq<Byte>, version: Version, ecl: Ecl)
    requires Fits(|bytes|, version, ecl)
    ensures var n := |Content(bytes, version)|;
            n == 4 + CountBits(version) + 8 * |bytes| && CountBits(version) % 8 == 0
            && n % 8 == 4 && n + 4 <= NumDataCodewords(version, ecl) * 8
  {
    hide Content, NumDataCodewords;
  }

  /** The terminator is four bits, no alignment bits are needed, and the pad bytes end exactly at capacity. */
  method PackCodewords(bytes: seq<Byte>, version: Version, ecl: Ecl) returns (dataCodewords: seq<Byte>)
    requires Fits(|bytes|, version, ecl)
    ensures |dataCodewords| == NumDataCodewords(version, ecl)
    ensures var pads := |dataCodewords| - (1 + CountBits(version) / 8 + |bytes|);
            pads >= 0 &&
            BytesToBits(dataCodewords) ==
            Content(bytes, version) + [false, false, false, false] + BytesToBits(Padding(pads))
    ensures Parse(dataCodewords, version) == Some(bytes)
  {
    hide ToBits, BytesToBits, ParseBits, Padding, NumDataCodewords, Content, Fits, CountBits;
    var bb := new BitBuffer();
    AppendContent(bb, bytes, version);
    ghost var content := Content(bytes, version);
    var capacity := NumDataCodewords(version, ecl) * 8;
    ContentLength(bytes, version, ecl);
    bb.Append(0, if 4 < capacity - |bb.bits| then 4 else capacity - |bb.bits|);
    bb.Append(0, (8 - |bb.bits| % 8) % 8);
    ZeroBits();
    ghost var prefix := content + [false, false, false, false];
    assert bb.bits == prefix;
    AppendPadBytes(bb, capacity);
    dataCodewords := GroupBytes(bb.bits);
    ghost var rest := BytesToBits(Padding((capacity - |prefix|) / 8));
    ParseContent(bytes, version, ecl, [false, false, false, false] + rest);
    assert content + ([false, false, false, false] + rest) == bb.bits;
  }

  lemma ZeroBits()
    ensures ToBits(0, 4) == [false, false, false, false]
    ensures ToBits(0, 0) == []
  {
  }

  /**
   * The data codewords in literal terms: byte mode, the byte count in eight or sixteen bits, the bytes, four zero bits
   * and the bytes 236 and 17 in turn.
   */
  lemma PackedFields(codewords: seq<Byte>, bytes: seq<Byte>, ver: Version, pads: nat)
    requires |bytes| < Pow2(CountBits(ver)) && pads <= |codewords|
    requires BytesToBits(codewords) ==
             Content(bytes, ver) + [false, false, false, false] + BytesToBits(Padding(pads))
    ensures var s, start := BytesToBits(codewords), if ver <= 9 then 12 else 20;
            && |s| == start + 8 * |bytes| + 4 + 8 * pads
            && s[..4] == [false, true, false, false] && FromBits(s[4..start]) == |bytes|
            && (forall k :: 0 <= k < 8 * |bytes| ==> s[start + k] == GetBit(bytes[k / 8], 7 - k % 8))
            && s[start + 8 * |bytes|..][..4] == [false, false, false, false]
            && forall i :: 0 <= i < pads ==> codewords[|codewords| - pads + i] == if i % 2 == 0 then 236 else 17
  {
    hide Pow2, ToBits, BytesToBits, FromBits, GetBit, Padding;
    var s, start := BytesToBits(codewords), 4 + CountBits(ver);
    ModeIs();
    FromToBits(|bytes|, CountBits(ver));
    var mode, count, data := ToBits(4, 4), ToBits(|bytes|, CountBits(ver)), BytesToBits(bytes);
    assert s == mode + count + data + [false, false, false, false] + BytesToBits(Padding(pads));
    assert s[4..start] == count;
    forall k | 0 <= k < 8 * |bytes|
      ensures s[start + k] == GetBit(bytes[k / 8], 7 - k % 8)
    {
      BytesToBitsAt(bytes, k);
    }
    PadBytesAreLast(codewords, pads);
  }

  lemma ModeIs()
    ensures ToBits(4, 4) == [false, true, false, false]
  {
  }

  lemma PadBytesAreLast(codewords: seq<Byte>, pads: nat)
    requires pads <= |codewords|
    requires BytesToBits(codewords)[8 * (|codewords| - pads)..] == BytesToBits(Padding(pads))
    ensures forall i :: 0 <= i < pads ==> codewords[|codewords| - pads + i] == if i % 2 == 0 then 236 else 17
  {
    var n := |codewords| - pads;
    hide BytesToBits, BitsToBytes;
    assert codewords == codewords[..n] + codewords[n..];
    BytesToBitsSplit(codewords[..n], codewords[n..]);
    BytesBitsBytes(codewords[n..]);
    BytesBitsBytes(Padding(pads));
    assert BytesToBits(codewords[n..]) == BytesToBits(codewords)[8 * n..];
    assert codewords[n..] == Padding(pads);
  }

  /** `pad ^= 0xec ^ 0x11` */
  function Toggle(pad: Byte): Byte {
    XorBelow(0xec, 0x11, 8);
    XorBelow(pad, Xor(0xec, 0x11), 8);
    Xor(pad, Xor(0xec, 0x11))
  }

  lemma PadToggles()
    ensures Toggle(0xec) == 0x11 && Toggle(0x11) == 0xec
  {
    XorAssociates(0xec, 0xec, 0x11);
    XorSelf(0xec);
    XorZero(0x11);
    XorCommutes(0xec, 0x11);
    XorAssociates(0x11, 0x11, 0xec);
    XorSelf(0x11);
    XorZero(0xec);
  }

  /** The number built from the `j` bits that start at `i`. */
  lemma FromBitsSnoc(bits: seq<bool>, i: nat, j: nat)
    requires i + j < |bits|
    ensures FromBits(bits[i..i + j + 1]) == FromBits(bits[i..i + j]) * 2 + BitVal(bits[i + j])
  {
    var s := bits[i..i + j + 1];
    assert s[..j] == bits[i..i + j];
  }

  method GroupBytes(bits: seq<bool>) returns (bytes: seq<Byte>)
    requires |bits| % 8 == 0
    ensures |bytes| == |bits| / 8
    ensures BytesToBits(bytes) == bits
  {
    hide ToBits, FromBits, BytesToBits;
    bytes := [];
    NoBytes([]);
    var i := 0;
    while i < |bits|
      invariant 0 <= i <= |bits| && i % 8 == 0
      invariant |bytes| == i / 8
      invariant BytesToBits(bytes) == bits[..i]
    {
      var byte := 0;
      EmptyBits(bits, i);
      for j := 0 to 8
        invariant byte == FromBits(bits[i..i + j])
      {
        FromBitsSnoc(bits, i, j);
        byte := byte * 2 + BitVal(bits[i + j]);
      }
      FromBitsByte(bits[i..i + 8]);
      ToFromBits(bits[i..i + 8]);
      ghost var more := bytes + [byte];
      BytesToBitsSnoc(more, |bytes|);
      assert more[..|bytes|] == bytes && more[..|more|] == more;
      assert bits[..i + 8] == bits[..i] + bits[i..i + 8];
      bytes := bytes + [byte];
      i := i + 8;
    }
    assert bits[..|bits|] == bits;
  }

  lemma EmptyBits(bits: seq<bool>, i: nat)
    requires i <= |bits|
    ensures FromBits(bits[i..i + 0]) == 0
  {
  }
}
