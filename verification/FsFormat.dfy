/** What FS_PartitionFormat leaves on the disk (fs/fs.c:22-185), and exactly when a partition so formatted is a
    sound start for the file system. */
module FsFormat {
  import opened Words
  import opened DiskModel
  import opened Bitmaps
  import opened FsLayout
  import opened InodeTable
  import opened FileBlocks
  import opened FileContent
  import opened BlockMap
  import opened FileStates

  /** The bits the format is meant to leave set, and the one too many left clear. */
  function FormattedBits(blocks: nat, sects: nat): (bits: seq<bool>)
    ensures |bits| == BITS_PER_SECTOR * sects
    ensures forall i :: 0 <= i < |bits| ==> (bits[i] <==> i > blocks || (i == 0 && blocks >= 8))
  {
    seq(BITS_PER_SECTOR * sects, i requires i >= 0 => i > blocks || (i == 0 && blocks >= 8))
  }

  /** Those it leaves set when the buffer held `stale` before (`FsLayout.FormatBlockMap`). */
  function WrittenBits(stale: seq<bv8>, blocks: nat, sects: nat): (bits: seq<bool>)
    requires blocks / 8 <= |stale|
    ensures |bits| == BITS_PER_SECTOR * sects
    ensures forall i :: 0 <= i < |bits| ==> (bits[i] <==> BitWritten(stale, blocks, i))
  {
    seq(BITS_PER_SECTOR * sects, i requires i >= 0 => BitWritten(stale, blocks, i))
  }

  /** A byte as a number. */
  function Num(b: bv8): Byte {
    b as int
  }

  /** Bytes are written out as they are in memory. */
  function ByteValues(bytes: seq<bv8>): (r: seq<Byte>)
    ensures |r| == |bytes|
  {
    seq(|bytes|, i requires 0 <= i < |bytes| => Num(bytes[i]))
  }

  /** The root directory: two entries in the first block of the data area. */
  function RootInode(sb: SuperBlock): Inode
    requires sb.dataStartLBA < 0x1_0000_0000
  {
    Inode(0, 48, 0, false, seq<U32>(InodeTable.SLOTS, _ => 0)[0 := sb.dataStartLBA], 0, 0)
  }

  /** Number 0, size of two entries, first block the first of the data area. */
  lemma RootRecord(sb: SuperBlock)
    requires sb.dataStartLBA < 0x1_0000_0000
    ensures var r := InodeTable.Encode(RootInode(sb));
            && NumberAt(r, 0) == 0 && NumberAt(r, 4) == 48 && NumberAt(r, 8) == NumberAt(r, 12) == 0
            && NumberAt(r, 16) == sb.dataStartLBA && (forall k :: 1 <= k < 13 ==> NumberAt(r, 16 + 4 * k) == 0)
            && NumberAt(r, 68) == NumberAt(r, 72) == 0
  {
    hide InodeTable.Encode, NumberAt;
    var i := RootInode(sb);
    InodeTable.RecordLayout(i);
    var r := InodeTable.Encode(i);
    assert NumberAt(r, 16 + 4 * 0) == i.iSectors[0];
    forall k | 1 <= k < 13
      ensures NumberAt(r, 16 + 4 * k) == 0
    {
      assert i.iSectors[k] == 0;
    }
  }

  /** The map and the inode table after a format. */
  ghost predicate Formatted(d: map<nat, Sector>, sb: SuperBlock, blocks: nat)
    requires sb.dataStartLBA < 0x1_0000_0000
  {
    && Covers(d, sb.partLBABase, sb.secCnt)
    && (forall s: nat :: s < sb.blockBitmapSects ==> OnMap(d, sb, blocks, s))
    && Covers(d, sb.inodeTableLBA, TABLE_SECTS)
    && InodeTable.Stored(d, sb.inodeTableLBA, 0) == RootInode(sb)
  }

  /** The inode table byte for byte: the record of the root directory, and zeros. */
  ghost predicate TableOfRoot(d: map<nat, Sector>, sb: SuperBlock)
    requires sb.dataStartLBA < 0x1_0000_0000
  {
    && Covers(d, sb.inodeTableLBA, TABLE_SECTS)
    && InodeTable.Table(d, sb.inodeTableLBA) == Encode(RootInode(sb)) + Zeros(SECTOR * TABLE_SECTS - RECORD)
  }

  ghost predicate OnMap(d: map<nat, Sector>, sb: SuperBlock, blocks: nat, s: nat)
    requires s < sb.blockBitmapSects
  {
    MapHolds(d, sb, FormattedBits(blocks, sb.blockBitmapSects), s)
  }

  /** Sector s of the map holds these bits. */
  ghost predicate MapHolds(d: map<nat, Sector>, sb: SuperBlock, bits: seq<bool>, s: nat)
    requires s < sb.blockBitmapSects && |bits| == BITS_PER_SECTOR * sb.blockBitmapSects
  {
    sb.blockBitmapLBA + s in d && d[sb.blockBitmapLBA + s] == PackSector(bits, s)
  }

  const SUPER_BLOCK_MAGIC := 0x2021_0515
  const DIR_ENTRY_SIZE := 24

  /** All numbers of a super block fit into words. */
  predicate SuperFits(sb: SuperBlock) {
    && sb.secCnt < 0x1_0000_0000 && sb.partLBABase < 0x1_0000_0000
    && sb.blockBitmapLBA < 0x1_0000_0000 && sb.blockBitmapSects < 0x1_0000_0000
    && sb.inodeBitmapLBA < 0x1_0000_0000 && sb.inodeBitmapSects < 0x1_0000_0000
    && sb.inodeTableLBA < 0x1_0000_0000 && sb.inodeTableSects < 0x1_0000_0000
    && sb.dataStartLBA < 0x1_0000_0000
  }

  /** The structure of fs/inode.h:21-41, in order, and its padding. */
  function SuperWords(sb: SuperBlock): (w: seq<U32>)
    requires SuperFits(sb)
    ensures |w| == SECTOR / 4
  {
    [SUPER_BLOCK_MAGIC, sb.secCnt, MAX_FILES_PER_PART, sb.partLBABase, sb.blockBitmapLBA, sb.blockBitmapSects,
     sb.inodeBitmapLBA, sb.inodeBitmapSects, sb.inodeTableLBA, sb.inodeTableSects, sb.dataStartLBA, 0, DIR_ENTRY_SIZE]
    + seq(SECTOR / 4 - 13, _ => 0)
  }

  /** Where the fields stand in the sector; the rest of it is zero. */
  lemma SuperLayout(sb: SuperBlock)
    requires SuperFits(sb)
    ensures var b := PutWords(SuperWords(sb));
            && |b| == SECTOR && NumberAt(b, 0) == 0x20210515 && NumberAt(b, 4) == sb.secCnt
            && NumberAt(b, 8) == 4096 && NumberAt(b, 12) == sb.partLBABase
            && NumberAt(b, 16) == sb.blockBitmapLBA && NumberAt(b, 20) == sb.blockBitmapSects
            && NumberAt(b, 24) == sb.inodeBitmapLBA && NumberAt(b, 28) == sb.inodeBitmapSects
            && NumberAt(b, 32) == sb.inodeTableLBA && NumberAt(b, 36) == sb.inodeTableSects
            && NumberAt(b, 40) == sb.dataStartLBA && NumberAt(b, 44) == 0 && NumberAt(b, 48) == 24
            && forall k :: 13 <= k < SECTOR / 4 ==> NumberAt(b, 4 * k) == 0
  {
    hide PutWords, NumberAt;
    forall k: nat | k < SECTOR / 4
      ensures NumberAt(PutWords(SuperWords(sb)), 4 * k) == SuperWords(sb)[k]
    {
      LittleEndian(SuperWords(sb), k);
    }
    var b, w := PutWords(SuperWords(sb)), SuperWords(sb);
    assert NumberAt(b, 4 * 0) == w[0] && NumberAt(b, 4 * 1) == w[1] && NumberAt(b, 4 * 2) == w[2];
    assert NumberAt(b, 4 * 3) == w[3] && NumberAt(b, 4 * 4) == w[4] && NumberAt(b, 4 * 5) == w[5];
    assert NumberAt(b, 4 * 6) == w[6] && NumberAt(b, 4 * 7) == w[7] && NumberAt(b, 4 * 8) == w[8];
    assert NumberAt(b, 4 * 9) == w[9] && NumberAt(b, 4 * 10) == w[10] && NumberAt(b, 4 * 11) == w[11];
    assert NumberAt(b, 4 * 12) == w[12];
  }

  ghost predicate SuperOnDisk(d: map<nat, Sector>, sb: SuperBlock) {
    SuperFits(sb) && sb.partLBABase + 1 in d && d[sb.partLBABase + 1] == PutWords(SuperWords(sb))
  }

  /** FS_Mount reads back the super block that the format has written (fs.c:191-205). */
  method ReadSuper(disk: Disk, startLBA: nat, ghost sb: SuperBlock) returns (r: SuperBlock)
    requires SuperOnDisk(disk.sectors, sb) && sb.partLBABase == startLBA < MAX_LBA
    ensures r == sb
  {
    hide PutWords, GetWords;
    GetAfterPut(SuperWords(sb));
    var buf := disk.Read(startLBA + 1, 1);
    assert buf == disk.sectors[startLBA + 1];
    var w := GetWords(buf);
    r := SuperBlock(w[1], w[3], w[4], w[5], w[6], w[7], w[8], w[9], w[10]);
  }

  lemma DigitsOfByte(b: bv8)
    ensures Num(b) == DigitOf(ByteBit(b, 0)) + 2 * DigitOf(ByteBit(b, 1)) + 4 * DigitOf(ByteBit(b, 2))
                        + 8 * DigitOf(ByteBit(b, 3)) + 16 * DigitOf(ByteBit(b, 4)) + 32 * DigitOf(ByteBit(b, 5))
                        + 64 * DigitOf(ByteBit(b, 6)) + 128 * DigitOf(ByteBit(b, 7))
  {
  }

  /** A byte of the buffer is eight bits of the packed map. */
  lemma PackedAlike(bytes: seq<bv8>, bits: seq<bool>, j: nat)
    requires j < |bytes| && 8 * j + 8 <= |bits|
    requires forall i :: 8 * j <= i < 8 * j + 8 ==> bits[i] == Used(bytes, i)
    ensures Num(bytes[j]) == PackByte(bits, j)
  {
    hide ByteBit, DigitOf, Num, Used;
    DigitsOfByte(bytes[j]);
    BitOfByte(bytes, bits, j, 0);
    BitOfByte(bytes, bits, j, 1);
    BitOfByte(bytes, bits, j, 2);
    BitOfByte(bytes, bits, j, 3);
    BitOfByte(bytes, bits, j, 4);
    BitOfByte(bytes, bits, j, 5);
    BitOfByte(bytes, bits, j, 6);
    BitOfByte(bytes, bits, j, 7);
  }

  lemma BitOfByte(bytes: seq<bv8>, bits: seq<bool>, j: nat, k: nat)
    requires j < |bytes| && k < 8 && 8 * j + 8 <= |bits|
    requires forall i :: 8 * j <= i < 8 * j + 8 ==> bits[i] == Used(bytes, i)
    ensures DigitOf(bits[8 * j + k]) == DigitOf(ByteBit(bytes[j], k))
  {
    assert (8 * j + k) / 8 == j && (8 * j + k) % 8 == k;
  }

  /** The buffer, written out, is the packed map. */
  lemma MapBytes(bytes: seq<bv8>, bits: seq<bool>, sects: nat, s: nat)
    requires s < sects && SECTOR * sects <= |bytes| && |bits| == BITS_PER_SECTOR * sects
    requires forall i: nat :: i < |bits| ==> bits[i] == Used(bytes, i)
    ensures Part(ByteValues(bytes)[..SECTOR * sects], sects, s) == PackSector(bits, s)
  {
    hide Num, PackByte, Used;
    var a, b := Part(ByteValues(bytes)[..SECTOR * sects], sects, s), PackSector(bits, s);
    forall j: nat | j < SECTOR
      ensures a[j] == b[j]
    {
      PackedAlike(bytes, bits, SECTOR * s + j);
      assert a[j] == Num(bytes[SECTOR * s + j]);
      assert b[j] == PackByte(bits, SECTOR * s + j);
    }
  }

  /** Sector by sector, bit by bit. */
  lemma HoldsReadsAs(d: map<nat, Sector>, sb: SuperBlock, bits: seq<bool>)
    requires |bits| == BITS_PER_SECTOR * sb.blockBitmapSects
    requires forall s: nat :: s < sb.blockBitmapSects ==> MapHolds(d, sb, bits, s)
    ensures ReadsAs(d, sb.blockBitmapLBA, sb.blockBitmapSects, bits)
  {
    hide PackSector, ReadsAs;
    assert Padded(bits, sb.blockBitmapSects) == bits;
    forall s: nat | s < sb.blockBitmapSects
      ensures SectorOnDisk(d, bits, sb.blockBitmapLBA, sb.blockBitmapSects, s)
    {
      assert MapHolds(d, sb, bits, s);
    }
    MapReadsAs(d, bits, sb.blockBitmapLBA, sb.blockBitmapSects);
  }

  /** The map on the disk after a format with such a buffer, read as bytes. */
  ghost predicate WrittenMapReads(d: map<nat, Sector>, sb: SuperBlock, stale: seq<bv8>, blocks: nat)
    requires blocks / 8 <= |stale|
  {
    && Covers(d, sb.blockBitmapLBA, sb.blockBitmapSects)
    && forall i {:trigger Used(MapRead(d, sb.blockBitmapLBA, sb.blockBitmapSects), i)} ::
         0 <= i < BITS_PER_SECTOR * sb.blockBitmapSects ==>
           (Used(MapRead(d, sb.blockBitmapLBA, sb.blockBitmapSects), i) <==> BitWritten(stale, blocks, i))
  }

  lemma WrittenReads(d: map<nat, Sector>, sb: SuperBlock, stale: seq<bv8>, blocks: nat)
    requires blocks / 8 <= |stale|
    requires forall s: nat :: s < sb.blockBitmapSects ==>
               MapHolds(d, sb, WrittenBits(stale, blocks, sb.blockBitmapSects), s)
    ensures WrittenMapReads(d, sb, stale, blocks)
  {
    HoldsReadsAs(d, sb, WrittenBits(stale, blocks, sb.blockBitmapSects));
    hide Used, MapHolds, BitWritten;
  }

  /** FS_Mount reads the map into memory (fs.c:204-210): the bits there were. */
  method ReadMap(disk: Disk, sb: SuperBlock, ghost bits: seq<bool>) returns (bytes: seq<bv8>)
    requires MapOnDisk(disk.sectors, bits, sb.blockBitmapLBA, sb.blockBitmapSects)
    requires sb.blockBitmapSects > 0 && sb.blockBitmapLBA <= MAX_LBA
    ensures |bytes| == SECTOR * sb.blockBitmapSects && |bits| <= 8 * |bytes|
    ensures Bits(bytes)[..|bits|] == bits && forall i :: |bits| <= i < 8 * |bytes| ==> Used(bytes, i)
  {
    hide Used, PackByte, MapOnDisk;
    ReadBackIsSame(disk.sectors, bits, sb.blockBitmapLBA, sb.blockBitmapSects);
    var buf := disk.Read(sb.blockBitmapLBA, sb.blockBitmapSects);
    bytes := InMemory(buf);
  }

  /** FS_PartitionFormat: super block, block map, inode map, inode table and root directory; `entries` is the block
      of the root directory, `stale` what the buffer from sys_malloc holds. All is as it should be exactly if that
      marks no block. */
  method Format(disk: Disk, startLBA: nat, secCnt: nat, entries: Sector, stale: seq<bv8>) returns (sb: SuperBlock)
    requires secCnt >= FIXED_SECTS && MapBits(secCnt) > 0 && startLBA + secCnt <= MAX_LBA + 1
    requires Covers(disk.sectors, startLBA, secCnt) && |stale| == TABLE_SECTS * SECTOR
    modifies disk
    ensures sb == Layout(startLBA, secCnt) && disk.sectors.Keys == old(disk.sectors).Keys
    ensures MapBits(secCnt) / 8 <= |stale|
    ensures forall s: nat :: s < sb.blockBitmapSects ==>
              MapHolds(disk.sectors, sb, WrittenBits(stale, MapBits(secCnt), sb.blockBitmapSects), s)
    ensures WrittenMapReads(disk.sectors, sb, stale, MapBits(secCnt))
    ensures Formatted(disk.sectors, sb, MapBits(secCnt)) <==> Clean(stale, MapBits(secCnt))
    ensures SuperOnDisk(disk.sectors, sb)
    ensures sb.inodeBitmapLBA in disk.sectors && disk.sectors[sb.inodeBitmapLBA] == Zeros(SECTOR)[0 := 1]
    ensures sb.dataStartLBA in disk.sectors && disk.sectors[sb.dataStartLBA] == entries
    ensures sb.dataStartLBA < 0x1_0000_0000 && TableOfRoot(disk.sectors, sb)
    ensures forall k :: k in disk.sectors && !(startLBA < k <= sb.dataStartLBA) ==>
              disk.sectors[k] == old(disk.sectors)[k]
  {
    hide Layout, MapBits, SuperWords, PutWords, WrittenBits, FormattedBits, PackSector, Clean, Formatted,
         WrittenMapReads, TableOfRoot;
    sb := Layout(startLBA, secCnt);
    Dimensions(startLBA, secCnt);
    var super := PutWords(SuperWords(sb));
    disk.Write(startLBA + 1, super, 1);
    assert Part(super, 1, 0) == super;
    WriteMap(disk, sb, MapBits(secCnt), stale);
    WriteRest(disk, sb, MapBits(secCnt), entries, WrittenBits(stale, MapBits(secCnt), sb.blockBitmapSects));
    CleanIff(disk.sectors, sb, MapBits(secCnt), stale);
    WrittenReads(disk.sectors, sb, stale, MapBits(secCnt));
  }

  lemma Dimensions(startLBA: nat, secCnt: nat)
    requires secCnt >= FIXED_SECTS && MapBits(secCnt) > 0 && startLBA + secCnt <= MAX_LBA + 1
    ensures var sb, blocks := Layout(startLBA, secCnt), MapBits(secCnt);
            && WellLaidOut(sb, blocks) && SuperFits(sb) && sb.partLBABase == startLBA && sb.secCnt == secCnt
            && 0 < sb.blockBitmapSects <= blocks / 8 / SECTOR_PER_SIZE + 1 <= TABLE_SECTS
            && blocks <= BITS_PER_SECTOR * sb.blockBitmapSects && blocks / 8 <= TABLE_SECTS * SECTOR
            && sb.inodeBitmapSects == 1 && sb.inodeTableSects == TABLE_SECTS
  {
    LayoutFits(startLBA, secCnt);
  }

  /** The map on the disk is the one that is meant exactly if the buffer was clean. */
  lemma CleanIff(d: map<nat, Sector>, sb: SuperBlock, blocks: nat, stale: seq<bv8>)
    requires blocks / 8 <= |stale| && blocks <= BITS_PER_SECTOR * sb.blockBitmapSects
    requires forall s: nat :: s < sb.blockBitmapSects ==>
               MapHolds(d, sb, WrittenBits(stale, blocks, sb.blockBitmapSects), s)
    ensures (forall s: nat :: s < sb.blockBitmapSects ==> OnMap(d, sb, blocks, s)) <==> Clean(stale, blocks)
  {
    hide PackSector;
    var sects := sb.blockBitmapSects;
    var a, b := WrittenBits(stale, blocks, sects), FormattedBits(blocks, sects);
    if forall s: nat :: s < sects ==> OnMap(d, sb, blocks, s) {
      forall s: nat | s < sects
        ensures PackSector(a, s) == PackSector(b, s)
      {
        assert OnMap(d, sb, blocks, s) && MapHolds(d, sb, a, s);
      }
      PackInjective(a, b, sects);
      forall i | 0 < i < blocks / 8 * 8
        ensures !Used(stale, i)
      {
        assert a[i] == b[i];
      }
    }
    if Clean(stale, blocks) {
      assert a == b;
      forall s: nat | s < sects
        ensures OnMap(d, sb, blocks, s)
      {
        assert MapHolds(d, sb, a, s);
      }
    }
  }

  method WriteMap(disk: Disk, sb: SuperBlock, blocks: nat, stale: seq<bv8>)
    requires WellLaidOut(sb, blocks) && sb.blockBitmapSects > 0 && sb.partLBABase + sb.secCnt <= MAX_LBA + 1
    requires blocks / 8 / SECTOR_PER_SIZE + 1 <= TABLE_SECTS && sb.blockBitmapSects <= blocks / 8 / SECTOR_PER_SIZE + 1
    requires Covers(disk.sectors, sb.partLBABase, sb.secCnt) && |stale| == TABLE_SECTS * SECTOR
    modifies disk
    ensures disk.sectors.Keys == old(disk.sectors).Keys && blocks / 8 <= |stale|
    ensures forall k :: k in disk.sectors && !(sb.blockBitmapLBA <= k < sb.inodeBitmapLBA) ==>
              disk.sectors[k] == old(disk.sectors)[k]
    ensures forall s: nat :: s < sb.blockBitmapSects ==>
              MapHolds(disk.sectors, sb, WrittenBits(stale, blocks, sb.blockBitmapSects), s)
  {
    hide Num, PackByte, PackSector, Used, BitWritten;
    var buf := new bv8[TABLE_SECTS * SECTOR](i requires 0 <= i < TABLE_SECTS * SECTOR => stale[i]);
    assert buf[..] == stale;
    FormatBlockMap(buf, blocks);
    ghost var bits := WrittenBits(stale, blocks, sb.blockBitmapSects);
    var part := ByteValues(buf[..])[..SECTOR * sb.blockBitmapSects];
    disk.Write(sb.blockBitmapLBA, part, sb.blockBitmapSects);
    forall s: nat | s < sb.blockBitmapSects
      ensures MapHolds(disk.sectors, sb, bits, s)
    {
      MapBytes(buf[..], bits, sb.blockBitmapSects, s);
    }
  }

  method WriteRest(disk: Disk, sb: SuperBlock, blocks: nat, entries: Sector, ghost bits: seq<bool>)
    requires WellLaidOut(sb, blocks) && blocks > 0 && sb.partLBABase + sb.secCnt <= MAX_LBA + 1
    requires sb.inodeBitmapSects == 1 && sb.inodeTableSects == TABLE_SECTS && sb.dataStartLBA < 0x1_0000_0000
    requires Covers(disk.sectors, sb.partLBABase, sb.secCnt) && |bits| == BITS_PER_SECTOR * sb.blockBitmapSects
    requires forall s: nat :: s < sb.blockBitmapSects ==> MapHolds(disk.sectors, sb, bits, s)
    modifies disk
    ensures disk.sectors.Keys == old(disk.sectors).Keys
    ensures forall k :: k in disk.sectors && k < sb.inodeBitmapLBA ==> disk.sectors[k] == old(disk.sectors)[k]
    ensures forall s: nat :: s < sb.blockBitmapSects ==> MapHolds(disk.sectors, sb, bits, s)
    ensures Formatted(disk.sectors, sb, blocks)
            <==> forall s: nat :: s < sb.blockBitmapSects ==> OnMap(disk.sectors, sb, blocks, s)
    ensures sb.inodeBitmapLBA in disk.sectors && disk.sectors[sb.inodeBitmapLBA] == Zeros(SECTOR)[0 := 1]
    ensures sb.dataStartLBA in disk.sectors && disk.sectors[sb.dataStartLBA] == entries
    ensures TableOfRoot(disk.sectors, sb)
    ensures forall k :: k in disk.sectors && k > sb.dataStartLBA ==> disk.sectors[k] == old(disk.sectors)[k]
  {
    hide PackSector, Encode, InodeTable.Stored, FormattedBits, InodeTable.Table;
    ghost var d1 := disk.sectors;
    var inodeMap := Zeros(SECTOR)[0 := 1];
    disk.Write(sb.inodeBitmapLBA, inodeMap, sb.inodeBitmapSects);
    assert Part(inodeMap, 1, 0) == inodeMap;
    var table := Encode(RootInode(sb)) + Zeros(SECTOR * TABLE_SECTS - RECORD);
    ghost var d2 := disk.sectors;
    disk.Write(sb.inodeTableLBA, table, sb.inodeTableSects);
    ghost var d3 := disk.sectors;
    RootStored(d2, sb, table);
    assert TableOfRoot(d3, sb);
    disk.Write(sb.dataStartLBA, entries, 1);
    assert Part(entries, 1, 0) == entries;
    SameTableSameRecord(d3, disk.sectors, sb.inodeTableLBA);
    forall s: nat | s < sb.blockBitmapSects
      ensures MapHolds(disk.sectors, sb, bits, s)
    {
      assert MapHolds(d1, sb, bits, s);
    }
  }

  lemma SameTableSameRecord(d: map<nat, Sector>, e: map<nat, Sector>, lba: nat)
    requires Covers(d, lba, TABLE_SECTS) && Covers(e, lba, TABLE_SECTS)
    requires forall k :: k in d && lba <= k < lba + TABLE_SECTS ==> k in e && e[k] == d[k]
    ensures InodeTable.Stored(e, lba, 0) == InodeTable.Stored(d, lba, 0)
    ensures InodeTable.Table(e, lba) == InodeTable.Table(d, lba)
  {
    BytesSame(d, e, lba, TABLE_SECTS);
  }

  lemma RootStored(d: map<nat, Sector>, sb: SuperBlock, table: seq<Byte>)
    requires sb.dataStartLBA < 0x1_0000_0000 && Covers(d, sb.inodeTableLBA, TABLE_SECTS)
    requires |table| == SECTOR * TABLE_SECTS && table[..RECORD] == Encode(RootInode(sb))
    ensures var e := DiskModel.Stored(d, sb.inodeTableLBA, TABLE_SECTS, table);
            && Covers(e, sb.inodeTableLBA, TABLE_SECTS) && InodeTable.Table(e, sb.inodeTableLBA) == table
            && InodeTable.Stored(e, sb.inodeTableLBA, 0) == RootInode(sb)
  {
    ReadAfterStore(d, sb.inodeTableLBA, TABLE_SECTS, table);
    DecodeAfterEncode(RootInode(sb));
  }

  // ---------------------------------------------------------------- a sound start

  lemma SameByteSameBits(a: seq<bool>, b: seq<bool>, j: nat)
    requires 8 * j + 8 <= |a| && |a| == |b| && PackByte(a, j) == PackByte(b, j)
    ensures forall i :: 8 * j <= i < 8 * j + 8 ==> a[i] == b[i]
  {
    hide PackByte, ByteBit;
    forall i | 8 * j <= i < 8 * j + 8
      ensures a[i] == b[i]
    {
      PackedBit(a, j, i - 8 * j);
      PackedBit(b, j, i - 8 * j);
    }
  }

  /** Two maps packed alike are the same. */
  lemma PackInjective(a: seq<bool>, b: seq<bool>, sects: nat)
    requires |a| == |b| == BITS_PER_SECTOR * sects
    requires forall s: nat :: s < sects ==> PackSector(a, s) == PackSector(b, s)
    ensures a == b
  {
    hide PackByte;
    forall i: nat | i < |a|
      ensures a[i] == b[i]
    {
      var s, j := i / BITS_PER_SECTOR, i % BITS_PER_SECTOR / 8;
      assert PackSector(a, s)[j] == PackByte(a, SECTOR * s + j) && PackSector(b, s)[j] == PackByte(b, SECTOR * s + j);
      SameByteSameBits(a, b, SECTOR * s + j);
      assert 8 * (SECTOR * s + j) <= i < 8 * (SECTOR * s + j) + 8;
    }
  }

  /** The bits in memory, filled up, are those of the format. */
  lemma MountedBits(d: map<nat, Sector>, sb: SuperBlock, blocks: nat, bits: seq<bool>)
    requires forall s: nat :: s < sb.blockBitmapSects ==> OnMap(d, sb, blocks, s)
    requires |bits| <= BITS_PER_SECTOR * sb.blockBitmapSects
    ensures MapOnDisk(d, bits, sb.blockBitmapLBA, sb.blockBitmapSects)
            <==> Padded(bits, sb.blockBitmapSects) == FormattedBits(blocks, sb.blockBitmapSects)
  {
    hide PackSector, FormattedBits, Padded;
    var sects := sb.blockBitmapSects;
    if MapOnDisk(d, bits, sb.blockBitmapLBA, sects) {
      forall s: nat | s < sects
        ensures PackSector(Padded(bits, sects), s) == PackSector(FormattedBits(blocks, sects), s)
      {
        assert OnMap(d, sb, blocks, s) && SectorOnDisk(d, bits, sb.blockBitmapLBA, sects, s);
      }
      PackInjective(Padded(bits, sects), FormattedBits(blocks, sects), sects);
    }
    if Padded(bits, sects) == FormattedBits(blocks, sects) {
      forall s: nat | s < sects
        ensures SectorOnDisk(d, bits, sb.blockBitmapLBA, sects, s)
      {
        assert OnMap(d, sb, blocks, s);
      }
    }
  }

  /** What the file system starts with: the bits read from the disk and the root directory open. */
  ghost predicate StartsHealthy(d: map<nat, Sector>, sb: SuperBlock, bits: seq<bool>)
    requires sb.dataStartLBA < 0x1_0000_0000
  {
    Healthy(sb, Store(d, bits, map[0 := RootInode(sb)]))
  }

  /** The map a healthy start has: as far as the first block the format does not offer. */
  function StartBits(blocks: nat, sects: nat): seq<bool> {
    var all := FormattedBits(blocks, sects);
    if blocks < |all| then all[..blocks + 1] else all
  }

  /** The freshly formatted partition is healthy, whatever one takes for its number of blocks, exactly if the
      block the format offers too much is not on the map or inside the partition
      (`FsLayout.OfferedBlocksInsideIff`), and the bit of the root directory has survived. */
  lemma FormattedIsHealthyIff(d: map<nat, Sector>, startLBA: nat, secCnt: nat)
    requires secCnt >= FIXED_SECTS && MapBits(secCnt) > 0 && startLBA + secCnt <= MAX_LBA + 1
    requires Layout(startLBA, secCnt).dataStartLBA < 0x1_0000_0000
    requires Formatted(d, Layout(startLBA, secCnt), MapBits(secCnt))
    ensures var sb := Layout(startLBA, secCnt);
            (exists bits :: StartsHealthy(d, sb, bits))
            <==> MapBits(secCnt) >= 8
                 && (MapBits(secCnt) % BITS_PER_SECTOR == 0 || sb.blockBitmapSects < MapSects(secCnt))
  {
    var sb, blocks := Layout(startLBA, secCnt), MapBits(secCnt);
    StartFits(startLBA, secCnt);
    hide StartsHealthy, Formatted, Layout, StartBits, MapBits, MapSects, WellLaidOut;
    if bits :| StartsHealthy(d, sb, bits) {
      OnlyIfHealthy(d, sb, blocks, bits);
    }
    if blocks >= 8 && (blocks % BITS_PER_SECTOR == 0 || sb.blockBitmapSects < MapSects(secCnt)) {
      StartIsHealthy(d, sb, blocks);
      assert StartsHealthy(d, sb, StartBits(blocks, sb.blockBitmapSects));
    }
  }

  /** The arithmetic of it. */
  lemma StartFits(startLBA: nat, secCnt: nat)
    requires secCnt >= FIXED_SECTS && MapBits(secCnt) > 0
    ensures var sb, blocks := Layout(startLBA, secCnt), MapBits(secCnt);
            && sb.partLBABase == startLBA && sb.secCnt == secCnt && 0 < sb.dataStartLBA
            && StartBits(blocks, sb.blockBitmapSects) != []
            && (blocks % BITS_PER_SECTOR == 0 || sb.blockBitmapSects < MapSects(secCnt)
                <==> WellLaidOut(sb, |StartBits(blocks, sb.blockBitmapSects)|))
            && (blocks % BITS_PER_SECTOR == 0 || sb.blockBitmapSects < MapSects(secCnt)
                <==> blocks >= BITS_PER_SECTOR * sb.blockBitmapSects
                     || sb.dataStartLBA + blocks + 1 <= startLBA + secCnt)
  {
    LayoutFits(startLBA, secCnt);
  }

  lemma OnlyIfHealthy(d: map<nat, Sector>, sb: SuperBlock, blocks: nat, bits: seq<bool>)
    requires sb.dataStartLBA < 0x1_0000_0000 && Formatted(d, sb, blocks) && StartsHealthy(d, sb, bits)
    ensures blocks >= 8
    ensures blocks < BITS_PER_SECTOR * sb.blockBitmapSects ==>
              sb.dataStartLBA + blocks + 1 <= sb.partLBABase + sb.secCnt
  {
    MountedBits(d, sb, blocks, bits);
    var padded := Padded(bits, sb.blockBitmapSects);
    var root := RootInode(sb);
    assert FileOk(d, bits, sb.dataStartLBA, map[0 := root], 0);
    assert Slots(d, root.iSectors, 1)[0] == sb.dataStartLBA;
    assert Taken(bits, sb.dataStartLBA, sb.dataStartLBA);
    assert padded[0] == bits[0];
    if blocks < |padded| { assert !padded[blocks]; }
  }

  lemma StartIsHealthy(d: map<nat, Sector>, sb: SuperBlock, blocks: nat)
    requires 0 < sb.dataStartLBA < 0x1_0000_0000 && Formatted(d, sb, blocks) && blocks >= 8
    requires StartBits(blocks, sb.blockBitmapSects) != [] && WellLaidOut(sb, |StartBits(blocks, sb.blockBitmapSects)|)
    requires sb.partLBABase + sb.secCnt <= MAX_LBA + 1
    ensures StartsHealthy(d, sb, StartBits(blocks, sb.blockBitmapSects))
  {
    var bits, root := StartBits(blocks, sb.blockBitmapSects), RootInode(sb);
    assert bits[0] && Padded(bits, sb.blockBitmapSects) == FormattedBits(blocks, sb.blockBitmapSects);
    MountedBits(d, sb, blocks, bits);
    hide StartBits, PackSector, FormattedBits, MapOnDisk;
    RootIsSound(d, bits, sb);
  }

  /** The root directory alone. */
  lemma RootIsSound(d: map<nat, Sector>, bits: seq<bool>, sb: SuperBlock)
    requires 0 < sb.dataStartLBA < 0x1_0000_0000 && |bits| > 0 && bits[0]
    ensures AllSound(d, bits, sb.dataStartLBA, map[0 := RootInode(sb)])
  {
    var root := RootInode(sb);
    assert Slots(d, root.iSectors, 1) == root.iSectors;
    assert SoundAt(d, bits, sb.dataStartLBA, root.iSectors, 1);
    assert FileOk(d, bits, sb.dataStartLBA, map[0 := root], 0);
  }

  /** 711 sectors, as in `FsLayout.StrayBlockExample`: no reading of the map makes a healthy start. */
  lemma UnhealthyStart(d: map<nat, Sector>, bits: seq<bool>)
    requires Formatted(d, Layout(0, 711), MapBits(711))
    ensures !StartsHealthy(d, Layout(0, 711), bits)
  {
    hide StartsHealthy, Formatted;
    FormattedIsHealthyIff(d, 0, 711);
  }

  // ---------------------------------------------------------------- mounting

  /** FS_Mount stores the length of the inode map as that of the block map (fs.c:216): only the first 4096
      blocks are looked at. A scan for a free block comes to the same exactly if one of them is free, or none of
      those behind them. */
  lemma MountedScanIff(bits: seq<bool>, meant: int, got: int)
    requires IsFirstFit(bits, |bits|, 1, meant)
    requires IsFirstFit(bits, if |bits| < BITS_PER_SECTOR then |bits| else BITS_PER_SECTOR, 1, got)
    ensures got == meant <==> (exists i :: 0 <= i < |bits| && i < BITS_PER_SECTOR && !bits[i])
                              || (forall i :: BITS_PER_SECTOR <= i < |bits| ==> bits[i])
  {
    forall i: nat | i < |bits|
      ensures FreeRun(bits, i, 1) <==> !bits[i]
    {
    }
    if i :| 0 <= i < |bits| && i < BITS_PER_SECTOR && !bits[i] {
      assert FreeRun(bits, i, 1);
      assert FreeRun(bits, meant, 1) && FreeRun(bits, got, 1);
    } else if meant != -1 {
      assert FreeRun(bits, meant, 1) && !bits[meant];
      assert got != -1 ==> FreeRun(bits, got, 1);
    }
  }

  /** With 4096 blocks taken and one free behind them, the disk counts as full. */
  lemma FullTooSoon(bits: seq<bool>, got: int)
    requires |bits| > 4096 && (forall i :: 0 <= i < 4096 ==> bits[i]) && !bits[4096]
    requires IsFirstFit(bits, BITS_PER_SECTOR, 1, got)
    ensures got == -1 && IsFirstFit(bits, |bits|, 1, 4096)
  {
    forall i: nat | i < 4096
      ensures !FreeRun(bits, i, 1)
    {
      assert bits[i];
    }
    FirstFitUnique(bits, BITS_PER_SECTOR, 1, got, -1);
  }
}
