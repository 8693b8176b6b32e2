/** What the error correction is worth: damage within half the correction length of every block can be repaired. */
module ErrorCorrection {
  import opened Bits
  import opened Versions
  import opened Interleaving
  import opened ReedSolomon
  import opened MinimumDistance
  import opened QrCode

  /** Block `j` as it was sent: its data and its error correction codewords. */
  function SentBlock(l: Layout, stream: seq<Byte>, j: nat): (b: seq<Byte>)
    requires Covers(l, stream) && j < l.blocks
    ensures |b| == l.BlockLen(j) + l.eccLen
  {
    ReadBlock(l, stream, j) + ReadEcc(l, stream, j)
  }

  /** No block of what was read is damaged in more than half as many codewords as it has error correction codewords. */
  ghost predicate Repairable(l: Layout, read: seq<Byte>, stream: seq<Byte>) {
    && Covers(l, read) && Covers(l, stream)
    && forall j :: 0 <= j < l.blocks ==> 2 * Distance(SentBlock(l, read, j), SentBlock(l, stream, j)) <= l.eccLen
  }

  lemma BlocksAgree(l: Layout, read: seq<Byte>, s1: seq<Byte>, s2: seq<Byte>, j: nat)
    requires l.dataLen + 1 + l.eccLen <= 255 && j < l.blocks
    requires IsCodeStream(l, s1) && IsCodeStream(l, s2)
    requires Repairable(l, read, s1) && Repairable(l, read, s2)
    ensures ReadBlock(l, s1, j) == ReadBlock(l, s2, j) && ReadEcc(l, s1, j) == ReadEcc(l, s2, j)
  {
    hide Distance, Generator, Remainder, ReadBlock, ReadEcc;
    var b1, b2 := ReadBlock(l, s1, j), ReadBlock(l, s2, j);
    assert SentBlock(l, s1, j) == Block(b1, l.eccLen);
    assert SentBlock(l, s2, j) == Block(b2, l.eccLen);
    UniqueDecoding(SentBlock(l, read, j), b1, b2, l.eccLen);
  }

  /** Streams that agree in every block agree in every codeword. */
  lemma BlocksDetermineStream(l: Layout, s1: seq<Byte>, s2: seq<Byte>)
    requires Covers(l, s1) && Covers(l, s2)
    requires forall j :: 0 <= j < l.blocks ==>
               ReadBlock(l, s1, j) == ReadBlock(l, s2, j) && ReadEcc(l, s1, j) == ReadEcc(l, s2, j)
    ensures s1 == s2
  {
    forall k | 0 <= k < |s1|
      ensures s1[k] == s2[k]
    {
      var i, j := PositionOf(l, l.Rows(), k);
      EntriesAgree(l, s1, s2, i, j);
    }
  }

  lemma EntriesAgree(l: Layout, s1: seq<Byte>, s2: seq<Byte>, i: nat, j: nat)
    requires Covers(l, s1) && Covers(l, s2)
    requires i < l.Rows() && l.From(i) <= j < l.blocks
    requires ReadBlock(l, s1, j) == ReadBlock(l, s2, j) && ReadEcc(l, s1, j) == ReadEcc(l, s2, j)
    ensures ReadAt(l, s1, i, j) == ReadAt(l, s2, i, j)
  {
    hide ReadAt;
    if i < l.BlockLen(j) {
      assert ReadBlock(l, s1, j)[i] == ReadAt(l, s1, i, j);
      assert ReadBlock(l, s2, j)[i] == ReadAt(l, s2, i, j);
    } else {
      var e := i - (l.dataLen + 1);
      assert ReadEcc(l, s1, j)[e] == ReadAt(l, s1, i, j);
      assert ReadEcc(l, s2, j)[e] == ReadAt(l, s2, i, j);
    }
  }

  /**
   * Whatever was read from a symbol of any version and level, at most one code stream is within reach of repair:
   * two messages that could both explain what was read are the same message.
   */
  lemma RepairIsUnique(ver: Version, ecl: Ecl, read: seq<Byte>, s1: seq<Byte>, s2: seq<Byte>)
    requires IsCodeStream(LayoutOf(ver, ecl), s1) && IsCodeStream(LayoutOf(ver, ecl), s2)
    requires Repairable(LayoutOf(ver, ecl), read, s1) && Repairable(LayoutOf(ver, ecl), read, s2)
    ensures s1 == s2
    ensures DecodeCodewords(s1, ver, LayoutOf(ver, ecl)) == DecodeCodewords(s2, ver, LayoutOf(ver, ecl))
  {
    hide IsCodeStream, Repairable, LayoutOf, DecodeCodewords;
    LayoutTotals(ver, ecl);
    var l := LayoutOf(ver, ecl);
    assert Covers(l, s1) && Covers(l, s2) by { StreamsCover(l, s1); StreamsCover(l, s2); }
    forall j | 0 <= j < l.blocks
      ensures ReadBlock(l, s1, j) == ReadBlock(l, s2, j) && ReadEcc(l, s1, j) == ReadEcc(l, s2, j)
    {
      BlocksAgree(l, read, s1, s2, j);
    }
    BlocksDetermineStream(l, s1, s2);
  }

  lemma StreamsCover(l: Layout, stream: seq<Byte>)
    requires IsCodeStream(l, stream)
    ensures Covers(l, stream)
  {
  }
}
