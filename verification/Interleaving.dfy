/** Splitting the data into blocks and interleaving the blocks (section 7.6 of ISO/IEC 18004:2015). */
module Interleaving {
  import opened Bits
  import opened Versions
  import opened ReedSolomon

  /** The first `short` blocks carry `dataLen` data bytes each, the others one more. */
  datatype Layout = Layout(blocks: nat, short: nat, dataLen: nat, eccLen: nat) {
    predicate Valid() {
      short <= blocks
    }

    function BlockLen(j: nat): nat {
      if j < short then dataLen else dataLen + 1
    }

    /** Where block `j` starts in the data. */
    function Start(j: nat): nat {
      if j == 0 then 0 else Start(j - 1) + BlockLen(j - 1)
    }

    /** Rows of the block table; row `dataLen` has no entry in a short block. */
    function Rows(): nat {
      dataLen + 1 + eccLen
    }

    function From(i: nat): nat {
      if i == dataLen then short else 0
    }

    function RowLen(i: nat): nat
      requires Valid()
    {
      blocks - From(i)
    }

    /** Entries in the first `i` rows. */
    function Filled(i: nat): nat
      requires Valid()
    {
      if i == 0 then 0 else Filled(i - 1) + RowLen(i - 1)
    }

    /** Where entry `i` of block `j` stands in the interleaved sequence. */
    function Pos(i: nat, j: nat): nat
      requires Valid() && From(i) <= j < blocks
    {
      Filled(i) + (j - From(i))
    }
  }

  // ---------------------------------------------------------------------------
  // Arithmetic of the layout
  // ---------------------------------------------------------------------------

  lemma {:induction false} FilledTotal(l: Layout, i: nat)
    requires l.Valid()
    ensures l.Filled(i) == i * l.blocks - (if i > l.dataLen then l.short else 0)
  {
    if i > 0 {
      FilledTotal(l, i - 1);
      assert i * l.blocks == (i - 1) * l.blocks + l.blocks;
    }
  }

  lemma {:induction false} StartTotal(l: Layout, j: nat)
    requires l.Valid()
    ensures l.Start(j) == j * l.dataLen + (if j > l.short then j - l.short else 0)
  {
    if j > 0 {
      StartTotal(l, j - 1);
      assert j * l.dataLen == (j - 1) * l.dataLen + l.dataLen;
    }
  }

  lemma {:induction false} FilledGrows(l: Layout, i: nat, k: nat)
    requires l.Valid() && i <= k
    ensures l.Filled(i) <= l.Filled(k)
    decreases k
  {
    if i < k {
      FilledGrows(l, i, k - 1);
    }
  }

  lemma PosBelow(l: Layout, i: nat, j: nat, n: nat)
    requires l.Valid() && l.From(i) <= j < l.blocks && i < n
    ensures l.Pos(i, j) < l.Filled(n)
  {
    FilledGrows(l, i + 1, n);
  }

  // ---------------------------------------------------------------------------
  // Reading the blocks back
  // ---------------------------------------------------------------------------

  predicate Covers<T>(l: Layout, stream: seq<T>) {
    l.Valid() && |stream| == l.Filled(l.Rows())
  }

  function ReadAt<T>(l: Layout, stream: seq<T>, i: nat, j: nat): T
    requires Covers(l, stream) && i < l.Rows() && l.From(i) <= j < l.blocks
  {
    PosBelow(l, i, j, l.Rows());
    stream[l.Pos(i, j)]
  }

  function ReadBlock<T>(l: Layout, stream: seq<T>, j: nat): (s: seq<T>)
    requires Covers(l, stream) && j < l.blocks
    ensures |s| == l.BlockLen(j)
  {
    seq(l.BlockLen(j), i requires 0 <= i < l.BlockLen(j) => ReadAt(l, stream, i, j))
  }

  function ReadEcc<T>(l: Layout, stream: seq<T>, j: nat): (s: seq<T>)
    requires Covers(l, stream) && j < l.blocks
    ensures |s| == l.eccLen
  {
    seq(l.eccLen, i requires 0 <= i < l.eccLen => ReadAt(l, stream, l.dataLen + 1 + i, j))
  }

  /** The data bytes of the first `n` blocks. */
  function ReadData<T>(l: Layout, stream: seq<T>, n: nat): (s: seq<T>)
    requires Covers(l, stream) && n <= l.blocks
    ensures |s| == l.Start(n)
  {
    if n == 0 then [] else ReadData(l, stream, n - 1) + ReadBlock(l, stream, n - 1)
  }

  // ---------------------------------------------------------------------------
  // Interleaving
  // ---------------------------------------------------------------------------

  ghost predicate IsTable<T>(l: Layout, table: seq<seq<T>>) {
    l.Valid() && |table| == l.blocks && forall j :: 0 <= j < l.blocks ==> |table[j]| == l.Rows()
  }

  function Row<T>(l: Layout, table: seq<seq<T>>, i: nat): (s: seq<T>)
    requires IsTable(l, table) && i < l.Rows()
    ensures |s| == l.RowLen(i)
  {
    seq(l.RowLen(i), k requires 0 <= k < l.RowLen(i) => table[l.From(i) + k][i])
  }

  function Interleaved<T>(l: Layout, table: seq<seq<T>>, n: nat): (s: seq<T>)
    requires IsTable(l, table) && n <= l.Rows()
    ensures |s| == l.Filled(n)
  {
    if n == 0 then [] else Interleaved(l, table, n - 1) + Row(l, table, n - 1)
  }

  /** Every entry of the table except the placeholders stands at its own position. */
  lemma {:induction false} InterleavedAt<T>(l: Layout, table: seq<seq<T>>, n: nat, i: nat, j: nat)
    requires IsTable(l, table) && i < n <= l.Rows() && l.From(i) <= j < l.blocks
    ensures l.Pos(i, j) < l.Filled(n)
    ensures Interleaved(l, table, n)[l.Pos(i, j)] == table[j][i]
  {
    PosBelow(l, i, j, n);
    if i < n - 1 {
      InterleavedAt(l, table, n - 1, i, j);
    }
  }

  /** Every position belongs to an entry: nothing but the table is in the interleaved sequence. */
  lemma {:induction false} PositionOf(l: Layout, n: nat, k: nat) returns (i: nat, j: nat)
    requires l.Valid() && k < l.Filled(n)
    ensures i < n && l.From(i) <= j < l.blocks && l.Pos(i, j) == k
  {
    if k < l.Filled(n - 1) {
      i, j := PositionOf(l, n - 1, k);
    } else {
      i, j := n - 1, l.From(n - 1) + (k - l.Filled(n - 1));
    }
  }

  /** Different entries have different positions. */
  lemma PositionsDiffer(l: Layout, i: nat, j: nat, i': nat, j': nat)
    requires l.Valid() && l.From(i) <= j < l.blocks && l.From(i') <= j' < l.blocks
    requires l.Pos(i, j) == l.Pos(i', j')
    ensures i == i' && j == j'
  {
    if i < i' {
      PosBelow(l, i, j, i');
    } else if i' < i {
      PosBelow(l, i', j', i);
    }
  }

  /** The stream goes through the rows of the table from top to bottom, and through each row from left to right. */
  lemma EntriesAreInOrder(l: Layout, i: nat, j: nat, i': nat, j': nat)
    requires l.Valid() && l.From(i) <= j < l.blocks && l.From(i') <= j' < l.blocks
    ensures l.Pos(i, j) < l.Pos(i', j') <==> i < i' || (i == i' && j < j')
  {
    if i < i' {
      PosBelow(l, i, j, i');
    } else if i' < i {
      PosBelow(l, i', j', i);
    }
  }

  /** The entries are the data bytes of the blocks, in the first rows, and the error correction bytes behind them. */
  lemma EntriesOfBlock(l: Layout, i: nat, j: nat)
    requires l.Valid() && j < l.blocks
    ensures l.From(i) <= j <==> i < l.BlockLen(j) || i > l.dataLen
    ensures l.BlockLen(j) <= l.dataLen + 1
    ensures j + 1 < l.blocks ==> l.BlockLen(j) <= l.BlockLen(j + 1) <= l.BlockLen(j) + 1
  {
  }

  method InterleaveTable<T>(l: Layout, table: seq<seq<T>>) returns (result: seq<T>)
    requires IsTable(l, table)
    ensures result == Interleaved(l, table, l.Rows())
  {
    result := [];
    for i := 0 to l.Rows()
      invariant result == Interleaved(l, table, i)
    {
      ghost var before, row := result, Row(l, table, i);
      for j := 0 to l.blocks
        invariant result == before + row[..if j < l.From(i) then 0 else j - l.From(i)]
      {
        if i != l.dataLen || j >= l.short {
          result := result + [table[j][i]];
        }
      }
      assert row[..|row|] == row;
    }
  }

  // ---------------------------------------------------------------------------
  // A data sequence, split, extended and interleaved
  // ---------------------------------------------------------------------------

  /** The layout of `raw` codewords; numbers that no version has give a layout without blocks. */
  function LayoutFor(raw: int, blocks: int, ecc: int): (l: Layout)
    ensures l.Valid() && l.eccLen > 0
  {
    if blocks <= 0 || ecc <= 0 || raw < (ecc + 1) * blocks then Layout(0, 0, 0, 1)
    else
      DivAtLeast(raw, blocks, ecc + 1);
      Layout(blocks, blocks - raw % blocks, raw / blocks - ecc, ecc)
  }

  lemma QuotientTotals(q: nat, m: nat, blocks: nat, ecc: nat)
    requires m <= blocks && q >= ecc
    ensures var l := Layout(blocks, blocks - m, q - ecc, ecc);
            l.Filled(l.Rows()) == q * blocks + m && l.Start(blocks) == q * blocks + m - ecc * blocks
  {
    var l := Layout(blocks, blocks - m, q - ecc, ecc);
    FilledTotal(l, l.Rows());
    StartTotal(l, blocks);
    hide Layout.Filled, Layout.Start;
    assert l.Rows() == q + 1;
    LayoutSums(q, m, blocks, ecc);
  }

  lemma LayoutForTotals(raw: int, blocks: int, ecc: int)
    requires blocks > 0 && ecc > 0 && (ecc + 1) * blocks <= raw < 255 * blocks
    ensures var l := LayoutFor(raw, blocks, ecc);
            && l.Filled(l.Rows()) == raw && l.Start(blocks) == raw - ecc * blocks
            && l.blocks == blocks && l.dataLen > 0 && l.eccLen == ecc && l.dataLen + 1 + ecc <= 255
  {
    hide Layout.Filled, Layout.Start;
    DivAtLeast(raw, blocks, ecc + 1);
    DivBelow(raw, blocks, 255);
    QuotientTotals(raw / blocks, raw % blocks, blocks, ecc);
  }

  lemma LayoutSums(q: int, m: int, blocks: int, ecc: int)
    ensures (q + 1) * blocks - (blocks - m) == q * blocks + m
    ensures blocks * (q - ecc) + m == q * blocks + m - ecc * blocks
  {
  }

  function LayoutOf(ver: Version, ecl: Ecl): (l: Layout)
    ensures l.Valid() && l.eccLen > 0
  {
    LayoutFor(RawCodewords(ver), NumBlocks(ver, ecl), EccLen(ver, ecl))
  }

  /** The block lengths add up: to the data codewords without, to all codewords with error correction. */
  lemma LayoutTotals(ver: Version, ecl: Ecl)
    ensures var l := LayoutOf(ver, ecl);
            && l.Filled(l.Rows()) == RawCodewords(ver) && l.Start(l.blocks) == NumDataCodewords(ver, ecl)
            && l.blocks > 0 && l.dataLen > 0 && 7 <= l.eccLen <= 30 && l.dataLen + 1 + l.eccLen <= 255
  {
    hide EccLen, NumBlocks, RawCodewords;
    TablesAreSound(ver, ecl);
    LayoutForTotals(RawCodewords(ver), NumBlocks(ver, ecl), EccLen(ver, ecl));
    hide LayoutFor;
  }

  /** Block `j` of the data. */
  function Slice<T>(l: Layout, data: seq<T>, j: nat): (s: seq<T>)
    requires l.Valid() && |data| == l.Start(l.blocks) && j < l.blocks
    ensures |s| == l.BlockLen(j)
  {
    StartGrows(l, j + 1, l.blocks);
    data[l.Start(j)..l.Start(j + 1)]
  }

  lemma {:induction false} StartGrows(l: Layout, j: nat, k: nat)
    requires l.Valid() && j <= k
    ensures l.Start(j) <= l.Start(k)
    decreases k
  {
    if j < k {
      StartGrows(l, j, k - 1);
    }
  }

  /** A table that carries the slices in its data rows gives them back, in order. */
  lemma {:induction false} ReadDataBack<T>(l: Layout, table: seq<seq<T>>, data: seq<T>, n: nat)
    requires IsTable(l, table) && |data| == l.Start(l.blocks) && n <= l.blocks
    requires forall j :: 0 <= j < l.blocks ==> Slice(l, data, j) <= table[j]
    ensures l.Start(n) <= |data|
    ensures ReadData(l, Interleaved(l, table, l.Rows()), n) == data[..l.Start(n)]
  {
    hide Interleaved;
    StartGrows(l, n, l.blocks);
    if n > 0 {
      ReadDataBack(l, table, data, n - 1);
      var stream := Interleaved(l, table, l.Rows());
      var slice := Slice(l, data, n - 1);
      forall i | 0 <= i < l.BlockLen(n - 1)
        ensures ReadBlock(l, stream, n - 1)[i] == slice[i]
      {
        InterleavedAt(l, table, l.Rows(), i, n - 1);
      }
      assert ReadBlock(l, stream, n - 1) == slice;
      assert data[..l.Start(n)] == data[..l.Start(n - 1)] + slice;
    }
  }

  /** Each block of `table` is its data, a placeholder if the block is short, and the remainder of the data. */
  ghost predicate IsBlockTable(l: Layout, table: seq<seq<Byte>>, data: seq<Byte>) {
    && IsTable(l, table) && |data| == l.Start(l.blocks) && l.eccLen > 0
    && forall j :: 0 <= j < l.blocks ==> table[j] == TableBlock(l, data, j)
  }

  function TableBlock(l: Layout, data: seq<Byte>, j: nat): (b: seq<Byte>)
    requires l.Valid() && |data| == l.Start(l.blocks) && j < l.blocks && l.eccLen > 0
    ensures |b| == l.Rows()
  {
    var dat := Slice(l, data, j);
    dat + (if j < l.short then [0] else []) + Remainder(dat, Generator(l.eccLen)[1..])
  }

  method BuildBlocks(l: Layout, data: seq<Byte>) returns (blocks: seq<seq<Byte>>)
    requires l.Valid() && |data| == l.Start(l.blocks) && l.eccLen > 0
    ensures IsBlockTable(l, blocks, data)
  {
    hide Generator, Remainder;
    blocks := [];
    var rsDiv := RsComputeDivisor(l.eccLen);
    var k := 0;
    for i := 0 to l.blocks
      invariant k == l.Start(i) <= |data| && |blocks| == i
      invariant rsDiv[..] == Generator(l.eccLen)[1..]
      invariant forall j :: 0 <= j < i ==> blocks[j] == TableBlock(l, data, j)
    {
      StartGrows(l, i + 1, l.blocks);
      var dat := data[k..k + l.dataLen + (if i < l.short then 0 else 1)];
      assert dat == Slice(l, data, i);
      k := k + |dat|;
      var ecc := RsComputeRemainder(dat, rsDiv);
      if i < l.short {
        dat := dat + [0];
      }
      blocks := blocks + [dat + ecc];
    }
  }

  lemma ReadEccBack(l: Layout, table: seq<seq<Byte>>, data: seq<Byte>, j: nat)
    requires IsBlockTable(l, table, data) && j < l.blocks
    ensures var stream := Interleaved(l, table, l.Rows());
            && ReadBlock(l, stream, j) == Slice(l, data, j)
            && ReadEcc(l, stream, j) == Remainder(ReadBlock(l, stream, j), Generator(l.eccLen)[1..])
  {
    hide Generator, Remainder, Interleaved;
    var stream, slice := Interleaved(l, table, l.Rows()), Slice(l, data, j);
    forall i | 0 <= i < l.BlockLen(j)
      ensures ReadBlock(l, stream, j)[i] == slice[i]
    {
      InterleavedAt(l, table, l.Rows(), i, j);
    }
    assert ReadBlock(l, stream, j) == slice;
    var ecc := Remainder(slice, Generator(l.eccLen)[1..]);
    forall i | 0 <= i < l.eccLen
      ensures ReadEcc(l, stream, j)[i] == ecc[i]
    {
      assert table[j] == TableBlock(l, data, j);
      var row := l.dataLen + 1 + i;
      assert table[j][row] == ecc[i];
      InterleavedAt(l, table, l.Rows(), row, j);
      assert ReadAt(l, stream, row, j) == ecc[i];
      assert ReadEcc(l, stream, j)[i] == ReadAt(l, stream, row, j);
    }
  }

  /** A stream whose blocks all end in the Reed-Solomon remainder of their data. */
  ghost predicate IsCodeStream(l: Layout, stream: seq<Byte>) {
    && Covers(l, stream) && l.eccLen > 0
    && forall j :: 0 <= j < l.blocks ==>
         ReadEcc(l, stream, j) == Remainder(ReadBlock(l, stream, j), Generator(l.eccLen)[1..])
  }

  method AddEccAndInterleave(data: seq<Byte>, ver: Version, ecl: Ecl) returns (result: seq<Byte>)
    requires |data| == NumDataCodewords(ver, ecl)
    ensures |result| == RawCodewords(ver)
    ensures Covers(LayoutOf(ver, ecl), result)
    ensures ReadData(LayoutOf(ver, ecl), result, LayoutOf(ver, ecl).blocks) == data
    ensures IsCodeStream(LayoutOf(ver, ecl), result)
  {
    LayoutTotals(ver, ecl);
    hide Generator, Remainder, RawCodewords, NumDataCodewords, Interleaved, LayoutOf;
    var l := LayoutOf(ver, ecl);
    var blocks := BuildBlocks(l, data);
    result := InterleaveTable(l, blocks);
    assert data[..l.Start(l.blocks)] == data;
    ReadDataBack(l, blocks, data, l.blocks);
    forall j | 0 <= j < l.blocks
      ensures ReadEcc(l, result, j) == Remainder(ReadBlock(l, result, j), Generator(l.eccLen)[1..])
    {
      ReadEccBack(l, blocks, data, j);
    }
  }
}
