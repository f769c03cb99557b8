/** The layout arithmetic of FS_PartitionFormat (fs/fs.c:22-139) and the block bit map it writes. */
module FsLayout {
  import opened Bitmaps

  const MAX_FILES_PER_PART := 4096
  const SECTOR_PER_SIZE := 512
  const BITS_PER_SECTOR := SECTOR_PER_SIZE * 8
  const INODE_SIZE := 76

  function DivRoundUp(x: nat, step: nat): (r: nat)
    requires step > 0
    ensures step * (r - 1) < x <= step * r
  {
    (x + step - 1) / step
  }

  const INODE_BITMAP_SECTS := DivRoundUp(MAX_FILES_PER_PART, BITS_PER_SECTOR)
  const INODE_TABLE_SECTS := DivRoundUp(INODE_SIZE * MAX_FILES_PER_PART, SECTOR_PER_SIZE)

  /** Boot sector, super block, inode map and inode table. */
  const FIXED_SECTS := 1 + 1 + INODE_BITMAP_SECTS + INODE_TABLE_SECTS

  datatype SuperBlock = SuperBlock(
    secCnt: nat, partLBABase: nat,
    blockBitmapLBA: nat, blockBitmapSects: nat,
    inodeBitmapLBA: nat, inodeBitmapSects: nat,
    inodeTableLBA: nat, inodeTableSects: nat,
    dataStartLBA: nat)

  /** Sectors set aside for the block map in the first estimate. */
  function MapSects(secCnt: nat): nat
    requires secCnt >= FIXED_SECTS
  {
    DivRoundUp(secCnt - FIXED_SECTS, BITS_PER_SECTOR)
  }

  /** Blocks the map speaks about. */
  function MapBits(secCnt: nat): nat
    requires secCnt >= FIXED_SECTS
  {
    secCnt - FIXED_SECTS - MapSects(secCnt)
  }

  /** The code subtracts without a check; a partition has at least the fixed areas. */
  function Layout(startLBA: nat, secCnt: nat): SuperBlock
    requires secCnt >= FIXED_SECTS
  {
    var mapSects := DivRoundUp(MapBits(secCnt), BITS_PER_SECTOR);
    var blockBitmapLBA := startLBA + 2;
    var inodeBitmapLBA := blockBitmapLBA + mapSects;
    var inodeTableLBA := inodeBitmapLBA + INODE_BITMAP_SECTS;
    SuperBlock(secCnt, startLBA, blockBitmapLBA, mapSects, inodeBitmapLBA, INODE_BITMAP_SECTS,
               inodeTableLBA, INODE_TABLE_SECTS, inodeTableLBA + INODE_TABLE_SECTS)
  }

  /** What the rest of the file system takes for granted about a super block. */
  predicate WellLaidOut(sb: SuperBlock, blocks: nat) {
    && sb.partLBABase + 2 <= sb.blockBitmapLBA
    && sb.blockBitmapLBA + sb.blockBitmapSects <= sb.inodeBitmapLBA
    && sb.inodeBitmapLBA + 1 <= sb.inodeTableLBA
    && sb.inodeTableLBA + INODE_TABLE_SECTS <= sb.dataStartLBA
    && blocks <= BITS_PER_SECTOR * sb.blockBitmapSects
    && sb.dataStartLBA + blocks <= sb.partLBABase + sb.secCnt
  }

  /** The areas follow each other without overlap, the inode table holds all 4096 records to the byte,
      the map has a bit for every block, and the data area ends inside the partition, short of its end by
      what the first estimate of the map was too generous (one sector at most on an 80 MB disk). */
  lemma LayoutFits(startLBA: nat, secCnt: nat)
    requires secCnt >= FIXED_SECTS
    ensures INODE_TABLE_SECTS == 608 && INODE_SIZE * MAX_FILES_PER_PART == SECTOR_PER_SIZE * INODE_TABLE_SECTS
    ensures WellLaidOut(Layout(startLBA, secCnt), MapBits(secCnt))
    ensures MapBits(secCnt) + MapSects(secCnt) == secCnt - 611
    ensures 4096 * (MapSects(secCnt) - 1) < secCnt - 611 <= 4096 * MapSects(secCnt)
    ensures var m := Layout(startLBA, secCnt).blockBitmapSects;
            && 4096 * (m - 1) < MapBits(secCnt) <= 4096 * m
            && Layout(startLBA, secCnt) == SuperBlock(secCnt, startLBA, startLBA + 2, m, startLBA + 2 + m, 1,
                                                      startLBA + 3 + m, 608, startLBA + 611 + m)
    ensures var sb := Layout(startLBA, secCnt);
            sb.dataStartLBA + MapBits(secCnt)
              == startLBA + secCnt - (MapSects(secCnt) - sb.blockBitmapSects)
    ensures 0 <= MapSects(secCnt) - Layout(startLBA, secCnt).blockBitmapSects
    ensures secCnt <= 80 * 1024 * 1024 / 512 ==> MapSects(secCnt) - Layout(startLBA, secCnt).blockBitmapSects <= 1
  {
  }

  /** Exactly the bits from n on are set. */
  ghost predicate ClearedBelow(b: bv8, n: nat) {
    forall k: nat :: k < 8 ==> (ByteBit(b, k) <==> k >= n)
  }

  lemma ClearOneMore(b: bv8, n: nat, c: bv8)
    requires n < 8 && ClearedBelow(b, n) && c == b & !Mask(n)
    ensures ClearedBelow(c, n + 1)
  {
    forall k: nat | k < 8
      ensures ByteBit(c, k) <==> k >= n + 1
    {
      SetByteBit(b, n, k);
    }
  }

  /** A bit of the map as it is written when the buffer held `stale` before: whole bytes below the last one are
      only or-ed with the root directory's bit. */
  predicate BitWritten(stale: seq<bv8>, blocks: nat, i: nat)
    requires blocks / 8 <= |stale|
  {
    i > blocks || (i == 0 && blocks >= 8) || (i < blocks / 8 * 8 && Used(stale, i))
  }

  /** What the bytes mean bit by bit. */
  lemma BitsWritten(stale: seq<bv8>, bytes: seq<bv8>, blocks: nat, end: nat)
    requires blocks / 8 < end <= |bytes| == |stale| && ClearedBelow(bytes[blocks / 8], blocks % 8 + 1)
    requires forall i :: 0 <= i < blocks / 8 ==> bytes[i] == if i == 0 then stale[0] | 0x01 else stale[i]
    requires forall i :: blocks / 8 < i < end ==> bytes[i] == 0xFF
    ensures forall i: nat :: i < 8 * end ==> (Used(bytes, i) <==> BitWritten(stale, blocks, i))
  {
    forall i: nat | i < 8 * end
      ensures Used(bytes, i) <==> BitWritten(stale, blocks, i)
    {
      assert i == 8 * (i / 8) + i % 8;
      assert Used(bytes, i) == ByteBit(bytes[i / 8], i % 8);
      if i / 8 == 0 < blocks / 8 { SetByteBit(stale[0], 0, i); }
      if i / 8 > blocks / 8 { FullByte(); }
    }
  }

  lemma FullByte()
    ensures ClearedBelow(0xFF, 0)
  {
    forall k: nat | k < 8
      ensures ByteBit(0xFF, k)
    {
      assert Mask(k) & 0xFF == Mask(k);
    }
  }

  /** The loop of lines 123-126. */
  method ClearLowBits(buf: array<bv8>, at: nat, lastBit: nat)
    requires at < buf.Length && buf[at] == 0xFF && lastBit < 8
    modifies buf
    ensures ClearedBelow(buf[at], lastBit + 1)
    ensures forall i :: 0 <= i < buf.Length && i != at ==> buf[i] == old(buf[i])
  {
    FullByte();
    var bitIdx := 0;
    while bitIdx <= lastBit
      invariant 0 <= bitIdx <= lastBit + 1
      invariant ClearedBelow(buf[at], bitIdx)
      invariant forall i :: 0 <= i < buf.Length && i != at ==> buf[i] == old(buf[i])
    {
      var b := buf[at];
      var c := b & !Mask(bitIdx);
      ClearOneMore(b, bitIdx, c);
      buf[at] := c;
      bitIdx := bitIdx + 1;
    }
  }

  /** Lines 113-126: bit 0 for the root directory, the bits past the end marked used. The buffer is
      long enough for the inode table, hence for every map the code can meet (`blocks / 8` and the rest
      of its sector lie inside it); what it holds is whatever sys_malloc hands out. The text clears one bit too
      many: `bitIdx <= blockBitmapLastBit`. */
  method FormatBlockMap(buf: array<bv8>, blocks: nat)
    requires (blocks / 8 / SECTOR_PER_SIZE + 1) * SECTOR_PER_SIZE <= buf.Length
    modifies buf
    ensures forall i :: 0 <= i < (blocks / 8 / SECTOR_PER_SIZE + 1) * BITS_PER_SECTOR ==>
              (Used(buf[..], i) <==> BitWritten(old(buf[..]), blocks, i))
  {
    ghost var stale := buf[..];
    buf[0] := buf[0] | 0x01;
    var lastByte := blocks / 8;
    var lastBit := blocks % 8;
    var lastSize := SECTOR_PER_SIZE - lastByte % SECTOR_PER_SIZE;
    forall i | lastByte <= i < lastByte + lastSize { buf[i] := 0xFF; }
    ClearLowBits(buf, lastByte, lastBit);
    assert lastByte + lastSize == (blocks / 8 / SECTOR_PER_SIZE + 1) * SECTOR_PER_SIZE;
    BitsWritten(stale, buf[..], blocks, lastByte + lastSize);
  }

  /** The buffer marks none of the blocks as used. */
  ghost predicate Clean(stale: seq<bv8>, blocks: nat)
    requires blocks / 8 <= |stale|
  {
    forall i {:trigger Used(stale, i)} :: 0 < i < blocks / 8 * 8 ==> !Used(stale, i)
  }

  /** The map marks the root directory's block and those behind the end, and no other. */
  ghost predicate MarkedAsMeant(stale: seq<bv8>, blocks: nat)
    requires blocks / 8 <= |stale|
  {
    forall i: nat {:trigger BitWritten(stale, blocks, i)} ::
      BitWritten(stale, blocks, i) <==> i > blocks || (i == 0 && blocks >= 8)
  }

  /** fs.c:107 says that memory comes cleared; it does not (kernel/memory.c:440-526). With given bytes in the buffer
      the map is as meant exactly if they mark no block. */
  lemma MapIsRightWith(stale: seq<bv8>, blocks: nat)
    requires blocks / 8 <= |stale|
    ensures MarkedAsMeant(stale, blocks) <==> Clean(stale, blocks)
  {
    if MarkedAsMeant(stale, blocks) {
      forall i | 0 < i < blocks / 8 * 8
        ensures !Used(stale, i)
      {
        assert BitWritten(stale, blocks, i) <==> i > blocks || (i == 0 && blocks >= 8);
      }
    }
  }

  /** Whatever the buffer held, it is as meant exactly if there are fewer than eight blocks. */
  lemma MapIsRightIff(blocks: nat, len: nat)
    requires blocks / 8 <= len
    ensures (forall stale: seq<bv8> :: |stale| == len ==> MarkedAsMeant(stale, blocks)) <==> blocks < 8
  {
    if blocks < 8 {
      forall stale: seq<bv8> | |stale| == len
        ensures MarkedAsMeant(stale, blocks)
      {
        MapIsRightWith(stale, blocks);
      }
    } else {
      var stale: seq<bv8> := seq(len, _ => 0xFF);
      MapIsRightWith(stale, blocks);
      StaleByteExample(stale, blocks);
      assert !MarkedAsMeant(stale, blocks);
    }
  }

  /** A byte 0xFF at the start of the buffer: blocks 1 to 7 count as taken and belong to nobody. */
  lemma StaleByteExample(stale: seq<bv8>, blocks: nat)
    requires 8 <= blocks && blocks / 8 <= |stale| && stale[0] == 0xFF
    ensures forall i :: 1 <= i < 8 ==> BitWritten(stale, blocks, i)
    ensures !Clean(stale, blocks)
  {
    FullByte();
    forall i | 1 <= i < 8
      ensures Used(stale, i)
    {
      assert ByteBit(stale[0], i);
    }
    assert Used(stale, 1);
  }

  /** Block numbers the formatted map offers for allocation. */
  predicate Offered(blocks: nat, mapSects: nat, i: nat) {
    i < BITS_PER_SECTOR * mapSects && !(i > blocks || (i == 0 && blocks >= 8))
  }

  /** Every block the formatted map offers lies inside the partition exactly when the stray bit is not
      on the map at all, or the sector saved by the second estimate lies behind it. */
  lemma OfferedBlocksInsideIff(startLBA: nat, secCnt: nat)
    requires secCnt >= FIXED_SECTS
    ensures var sb := Layout(startLBA, secCnt);
            (forall i :: Offered(MapBits(secCnt), sb.blockBitmapSects, i) ==>
               sb.dataStartLBA + i < startLBA + secCnt)
            <==> MapBits(secCnt) % BITS_PER_SECTOR == 0 || sb.blockBitmapSects < MapSects(secCnt)
  {
    LayoutFits(startLBA, secCnt);
    var sb := Layout(startLBA, secCnt);
    var blocks := MapBits(secCnt);
    if blocks % BITS_PER_SECTOR != 0 && sb.blockBitmapSects == MapSects(secCnt) {
      assert Offered(blocks, sb.blockBitmapSects, blocks);
    }
  }

  /** A partition of 711 sectors: block 99 is offered and lies just behind the last sector. */
  lemma StrayBlockExample()
    ensures var sb := Layout(0, 711);
            Offered(MapBits(711), sb.blockBitmapSects, 99) && sb.dataStartLBA + 99 == 711
  {
  }
}
