/** States of a mounted partition - disk, block map and inodes in memory - and what the steps of
    File_Write do from one state to another. */
module FileStates {
  import opened Words
  import opened DiskModel
  import opened FsLayout
  import opened InodeTable
  import opened FileBlocks
  import opened FileContent
  import opened Bitmaps
  import opened BlockMap

  datatype Store = Store(disk: map<nat, Sector>, bits: seq<bool>, inodes: map<nat, Inode>)

  /** The partition as mounted: laid out by format, on the disk, with its map written through. */
  ghost predicate Mounted(sb: SuperBlock, disk: map<nat, Sector>, bits: seq<bool>) {
    && |bits| > 0 && WellLaidOut(sb, |bits|)
    && sb.partLBABase + sb.secCnt <= MAX_LBA + 1
    && Covers(disk, sb.partLBABase, sb.secCnt)
    && MapOnDisk(disk, bits, sb.blockBitmapLBA, sb.blockBitmapSects)
  }

  /** Every inode in memory is sound, and no block has two owners. */
  ghost predicate Healthy(sb: SuperBlock, a: Store) {
    Mounted(sb, a.disk, a.bits) && AllSound(a.disk, a.bits, sb.dataStartLBA, a.inodes)
  }

  /** The sectors of the block map. */
  predicate InMapArea(sb: SuperBlock, k: nat) {
    sb.blockBitmapLBA <= k < sb.blockBitmapLBA + sb.blockBitmapSects
  }

  /** The inode table is the same. */
  ghost predicate SameTable(sb: SuperBlock, a: Store, b: Store) {
    && b.disk.Keys == a.disk.Keys
    && forall k :: k in a.disk && sb.inodeTableLBA <= k < sb.dataStartLBA ==> b.disk[k] == a.disk[k]
  }

  ghost predicate KeptIn(sb: SuperBlock, a: Store, b: Store, k: nat) {
    && k in a.inodes && k in b.inodes && b.inodes[k] == a.inodes[k]
    && Kept(a.disk, b.disk, a.bits, sb.dataStartLBA, a.inodes[k])
  }

  /** All other sectors are the same but for those blocks: super block, inode map, every block of every other file,
      and what is not in the partition. */
  ghost predicate Elsewhere(sb: SuperBlock, a: Store, b: Store, blocks: set<nat>) {
    && b.disk.Keys == a.disk.Keys
    && forall k :: k in a.disk && !InMapArea(sb, k) && !InTable(sb, k) && k !in blocks ==> b.disk[k] == a.disk[k]
  }

  predicate InTable(sb: SuperBlock, k: nat) {
    sb.inodeTableLBA <= k < sb.inodeTableLBA + TABLE_SECTS
  }

  /** Every file but `no` has the inode and the content it had. */
  ghost predicate OthersKeep(sb: SuperBlock, a: Store, b: Store, no: nat) {
    && b.inodes.Keys == a.inodes.Keys
    && forall k {:trigger KeptIn(sb, a, b, k)} :: k in a.inodes && k != no ==> KeptIn(sb, a, b, k)
  }

  /** A file with its blocks on the disk. */
  ghost predicate Present(a: Store, no: nat) {
    no in a.inodes && HasContent(a.disk, a.inodes[no])
  }

  ghost function ContentIn(a: Store, no: nat): (r: seq<Byte>)
    requires Present(a, no)
    ensures |r| == a.inodes[no].iSize
  {
    Content(a.disk, a.inodes[no])
  }

  /** The blocks of a file. */
  ghost function BlocksIn(a: Store, no: nat): set<nat>
    requires Present(a, no)
  {
    OwnedBy(a.disk, a.inodes[no])
  }

  // ---------------------------------------------------------------- how a write ends

  /** Making room either ends with all blocks, or for want of a block, or in an assertion that fails. */
  datatype Ending = Done | NoBlock | AssertFails

  /** File_Write returns the count or -1, or halts the kernel in an assertion. */
  datatype Outcome = Wrote(count: nat) | Refused | Halted

  /** How a release ends: with the blocks given back, with a bit cleared behind those of the blocks, which spoils
      the map, or in a failed assertion. */
  datatype ReleaseEnd = BlocksFreed | MapSpoilt | Panicked

  /** The blocks a write of `count` bytes fills up to. */
  function LastBlocks(size: nat, count: nat): nat {
    (size + count) / BLOCK + 1
  }

  /** The free blocks a file with its first block in place needs to grow by `count` bytes. */
  function RoomFor(size: nat, count: nat): nat {
    GrowthNeed(size / BLOCK + 1, LastBlocks(size, count))
  }

  /** The free blocks a write needs. */
  function Needed(i: Inode, count: nat): nat
    requires Shaped(i)
  {
    RoomFor(i.iSize, count) + if i.iSectors[0] == 0 then 1 else 0
  }

  /** With `free` blocks to be had, a write of `count` bytes meets a slot that is not empty. */
  ghost predicate WriteHalts(i: Inode, count: nat, free: nat)
    requires Shaped(i)
  {
    var n, m := i.iSize / BLOCK + 1, LastBlocks(i.iSize, count);
    if i.iSectors[0] != 0 then Halts(i.iSectors, n, m, free) else free > 0 && Halts(i.iSectors, n, m, free - 1)
  }

  /** The slots the inode has after a write that got as far as the blocks `taken`. */
  ghost predicate SlotsFilled(i: Inode, s': seq<U32>, count: nat, taken: seq<nat>)
    requires Shaped(i)
  {
    var n, m := i.iSize / BLOCK + 1, LastBlocks(i.iSize, count);
    if i.iSectors[0] != 0 then Filled(i.iSectors, s', n, m, taken)
    else if taken == [] then s' == i.iSectors
    else |s'| == SLOTS && s'[0] == taken[0] != 0 && Filled(i.iSectors[0 := s'[0]], s', n, m, taken[1..])
  }

  /** One block for every 512 bytes begun anew, one for the table when byte 6144 is reached, and the first block of a
      file that has none. */
  lemma NeededIs(i: Inode, count: nat)
    requires Shaped(i)
    ensures Needed(i, count) == (i.iSize + count) / 512 - i.iSize / 512
                                + (if i.iSize < 6144 <= i.iSize + count then 1 else 0)
                                + if i.iSectors[0] == 0 then 1 else 0
  {
  }

  /** What was found on the way decides how making room ends. */
  lemma EndingDecided(was: seq<bool>, bits: seq<bool>, base: nat, s: seq<U32>, n: nat, m: nat, taken: seq<nat>,
                      end: Ending)
    requires n <= m && Grown(was, bits, base, taken) && |taken| <= GrowthNeed(n, m)
    requires match end
             case Done => |taken| == GrowthNeed(n, m) && NoClash(s, n, m, |taken|)
             case NoBlock => |taken| < GrowthNeed(n, m) && NoClash(s, n, m, |taken|) && FreeCount(bits) == 0
             case AssertFails => |taken| > 0 && ClashWith(s, n, m, |taken| - 1)
    ensures end == if Halts(s, n, m, FreeCount(was)) then AssertFails
                   else if FreeCount(was) >= GrowthNeed(n, m) then Done else NoBlock
  {
    hide Grown, Clash;
    assert FreeCount(was) == FreeCount(bits) + |taken| by { GrownCounts(was, bits, base, taken); }
    match end
    case Done => ClashesEarly(s, n, m);
    case NoBlock =>
    case AssertFails =>
      var i: nat :| Clash(s, n, m, i, |taken| - 1);
  }

  lemma GrownCounts(was: seq<bool>, bits: seq<bool>, base: nat, taken: seq<nat>)
    requires Grown(was, bits, base, taken)
    ensures FreeCount(was) == FreeCount(bits) + |taken|
  {
  }

  lemma ClashesEarly(s: seq<U32>, n: nat, m: nat)
    requires n <= m
    ensures forall i: nat, k: nat :: Clash(s, n, m, i, k) ==> k < GrowthNeed(n, m)
  {
  }

  /** The first block does not matter to the slots behind it. */
  lemma HaltsBehindFirst(s: seq<U32>, x: U32, n: nat, m: nat, free: nat)
    requires |s| == SLOTS && n >= 1
    ensures Halts(s[0 := x], n, m, free) <==> Halts(s, n, m, free)
  {
    if Halts(s[0 := x], n, m, free) {
      var i: nat, k: nat :| k < free && Clash(s[0 := x], n, m, i, k);
      assert Clash(s, n, m, i, k);
    }
    if Halts(s, n, m, free) {
      var i: nat, k: nat :| k < free && Clash(s, n, m, i, k);
      assert Clash(s[0 := x], n, m, i, k);
    }
  }

  /** A write is safe from the assertions of file.c:465, 488 and 505, however many blocks are free, exactly
      if the slots it fills are empty; one that stays inside the last sector fills none. */
  lemma WriteSafeIff(i: Inode, count: nat)
    requires Shaped(i) && i.iSize + count < ALL_BLOCKS * BLOCK
    ensures (forall free: nat :: !WriteHalts(i, count, free))
            <==> SlotsFree(i.iSectors, i.iSize / BLOCK + 1, LastBlocks(i.iSize, count))
    ensures i.iSize / BLOCK == (i.iSize + count) / BLOCK ==> forall free: nat :: !WriteHalts(i, count, free)
  {
    var s, n, m := i.iSectors, i.iSize / BLOCK + 1, LastBlocks(i.iSize, count);
    AssertionsHoldIff(s, n, m);
    if forall free: nat :: !WriteHalts(i, count, free) {
      forall free: nat
        ensures !Halts(s, n, m, free)
      {
        assert !WriteHalts(i, count, if s[0] != 0 then free else free + 1);
      }
    }
  }

  /** A write that failed half-way, tried again, halts exactly if blocks for it had been put into slots and
      one has come free since. Once the table is in use it can always be tried again. */
  lemma RetryHaltsIff(i: Inode, s': seq<U32>, count: nat, taken: seq<nat>, free: nat)
    requires Shaped(i) && i.iSize + count < ALL_BLOCKS * BLOCK && (i.iSectors[0] == 0 ==> i.iSize == 0)
    requires forall x :: x in taken ==> x != 0
    requires SlotsFilled(i, s', count, taken) && |taken| <= Needed(i, count)
    ensures Shaped(i.(iSectors := s'))
    ensures !WriteHalts(i, count, |taken|) && |taken| > (if i.iSectors[0] == 0 then 1 else 0) ==>
              (WriteHalts(i.(iSectors := s'), count, free) <==> i.iSize / BLOCK < DIRECT && free > 0)
  {
    var n, m := i.iSize / BLOCK + 1, LastBlocks(i.iSize, count);
    if |taken| > (if i.iSectors[0] == 0 then 1 else 0) {
      assert taken[0] in taken && (|taken| > 1 ==> taken[1] in taken);
      var s := if i.iSectors[0] == 0 then i.iSectors[0 := s'[0]] else i.iSectors;
      var rest := if i.iSectors[0] == 0 then taken[1..] else taken;
      assert Filled(s, s', n, m, rest) && rest[0] != 0;
      if n <= DIRECT {
        FileBlocks.RetryHaltsIff(s, s', n, m, rest, free);
      } else {
        assert !Halts(s', n, m, free);
      }
    }
  }

  /** A file of one block and 0 bytes, block 11, and a disk with one free block, 12. A write of 1024 bytes
      fails with block 12 in slot 1. When another file has been released the same write halts. */
  lemma FailThenHalt(i: Inode)
    requires Shaped(i) && i.iSize == 0 && i.iSectors[0] == 11 && forall k :: 1 <= k < SLOTS ==> i.iSectors[k] == 0
    ensures Needed(i, 1024) == 2 && !WriteHalts(i, 1024, 1)
    ensures SlotsFilled(i, i.iSectors[1 := 12], 1024, [12])
    ensures WriteHalts(i.(iSectors := i.iSectors[1 := 12]), 1024, 1)
  {
    assert Clash(i.iSectors[1 := 12], 1, 3, 1, 0);
  }

  // ---------------------------------------------------------------- steps

  /** Between a and b file `no` has grown by `buf`, and no other has changed. */
  ghost predicate Extended(sb: SuperBlock, a: Store, b: Store, no: nat, buf: seq<Byte>) {
    && Present(a, no) && Present(b, no) && OthersKeep(sb, a, b, no)
    && a.inodes[no].iSize + |buf| < ALL_BLOCKS * BLOCK
    && b.inodes[no] == a.inodes[no].(iSectors := b.inodes[no].iSectors, iSize := a.inodes[no].iSize + |buf|)
    && ContentIn(b, no) == ContentIn(a, no) + buf
  }

  /** A write that found no room: blocks may have been taken, size and content are as before. */
  ghost predicate OutOfRoom(sb: SuperBlock, a: Store, b: Store, no: nat) {
    && Present(a, no) && Present(b, no) && OthersKeep(sb, a, b, no)
    && SameTable(sb, a, b) && Elsewhere(sb, a, b, {})
    && b.inodes[no] == a.inodes[no].(iSectors := b.inodes[no].iSectors)
    && ContentIn(b, no) == ContentIn(a, no) && FreeCount(b.bits) == 0
  }

  /** Of all inode records only that of `no` may have changed, to `rec`. */
  ghost predicate OnlyRecord(sb: SuperBlock, a: Store, b: Store, no: nat, rec: Inode) {
    && Covers(a.disk, sb.inodeTableLBA, TABLE_SECTS) && Covers(b.disk, sb.inodeTableLBA, TABLE_SECTS) && no < INODES
    && InodeTable.Stored(b.disk, sb.inodeTableLBA, no) == rec
    && forall k: nat :: k < INODES && k != no ==>
         InodeTable.Stored(b.disk, sb.inodeTableLBA, k) == InodeTable.Stored(a.disk, sb.inodeTableLBA, k)
  }

  /** One inode has been saved, and all files are as before. */
  ghost predicate Saved(sb: SuperBlock, a: Store, b: Store, no: nat) {
    && b.bits == a.bits && b.inodes == a.inodes && no in a.inodes && Elsewhere(sb, a, b, {})
    && OnlyRecord(sb, a, b, no, Persistent(a.inodes[no]))
    && forall k {:trigger KeptIn(sb, a, b, k)} :: k in a.inodes ==> KeptIn(sb, a, b, k)
  }

  /** A write that went through: the file has grown, its inode is on the disk, nothing else has changed. */
  ghost predicate WrittenThrough(sb: SuperBlock, a: Store, b: Store, no: nat, buf: seq<Byte>) {
    && Extended(sb, a, b, no, buf) && OnlyRecord(sb, a, b, no, Persistent(b.inodes[no]))
    && Elsewhere(sb, a, b, BlocksIn(b, no))
  }

  /** A write that failed: size and content are as before. */
  ghost predicate Unwritten(sb: SuperBlock, a: Store, b: Store, no: nat) {
    && Present(a, no) && Present(b, no) && OthersKeep(sb, a, b, no)
    && SameTable(sb, a, b) && Elsewhere(sb, a, b, {})
    && b.inodes[no] == a.inodes[no].(iSectors := b.inodes[no].iSectors)
    && ContentIn(b, no) == ContentIn(a, no)
  }

  /** After a release: exactly the blocks the file owned are free again, every other file is as it was. */
  ghost predicate Released(sb: SuperBlock, a: Store, b: Store, no: nat) {
    && Present(a, no)
    && Shrunk(a.bits, b.bits, sb.dataStartLBA, OwnedBy(a.disk, a.inodes[no]))
    && forall k {:trigger KeptIn(sb, a, b, k)} :: k in a.inodes && k != no ==> KeptIn(sb, a, b, k)
  }

  /** The record of `no` has been zeroed, no other has changed. */
  ghost predicate RecordZeroed(sb: SuperBlock, a: Store, b: Store, no: nat) {
    && Covers(a.disk, sb.inodeTableLBA, TABLE_SECTS) && Covers(b.disk, sb.inodeTableLBA, TABLE_SECTS) && no < INODES
    && Record(b.disk, sb.inodeTableLBA, no) == Zeros(RECORD)
    && forall k: nat :: k < INODES && k != no ==>
         InodeTable.Stored(b.disk, sb.inodeTableLBA, k) == InodeTable.Stored(a.disk, sb.inodeTableLBA, k)
  }

  // ---------------------------------------------------------------- one step after the other

  lemma OthersTwice(sb: SuperBlock, a: Store, b: Store, c: Store, no: nat)
    requires OthersKeep(sb, a, b, no) && OthersKeep(sb, b, c, no)
    ensures OthersKeep(sb, a, c, no)
  {
    forall k | k in a.inodes && k != no
      ensures KeptIn(sb, a, c, k)
    {
      assert KeptIn(sb, a, b, k) && KeptIn(sb, b, c, k);
      KeptTwice(a.disk, b.disk, c.disk, a.bits, b.bits, sb.dataStartLBA, a.inodes[k]);
    }
  }

  /** A step that leaves the table alone may come before. */
  lemma OnlyRecordVia(sb: SuperBlock, a: Store, b: Store, c: Store, no: nat, rec: Inode)
    requires Mounted(sb, a.disk, a.bits) && SameTable(sb, a, b) && OnlyRecord(sb, b, c, no, rec)
    ensures OnlyRecord(sb, a, c, no, rec)
  {
    assert Covers(a.disk, sb.inodeTableLBA, TABLE_SECTS);
    BytesSame(a.disk, b.disk, sb.inodeTableLBA, TABLE_SECTS);
  }

  /** Saving an inode comes after; the blocks of a file are what they were. */
  lemma ElsewhereVia(sb: SuperBlock, a: Store, b: Store, c: Store, no: nat)
    requires Present(b, no) && KeptIn(sb, b, c, no) && Elsewhere(sb, a, b, BlocksIn(b, no)) && Elsewhere(sb, b, c, {})
    ensures Present(c, no) && Elsewhere(sb, a, c, BlocksIn(c, no))
  {
    hide OwnedBy, Content;
  }

  lemma SavedAfter(sb: SuperBlock, a: Store, b: Store, c: Store, no: nat, buf: seq<Byte>)
    requires Mounted(sb, a.disk, a.bits) && Extended(sb, a, b, no, buf) && SameTable(sb, a, b) && Saved(sb, b, c, no)
    requires Elsewhere(sb, a, b, BlocksIn(b, no))
    ensures WrittenThrough(sb, a, c, no, buf)
  {
    hide Elsewhere, OwnedBy, SameTable;
    assert KeptIn(sb, b, c, no);
    OthersTwice(sb, a, b, c, no);
    OnlyRecordVia(sb, a, b, c, no, Persistent(b.inodes[no]));
    ElsewhereVia(sb, a, b, c, no);
  }

  lemma ThenWritten(sb: SuperBlock, a: Store, b: Store, c: Store, no: nat, buf: seq<Byte>)
    requires Mounted(sb, a.disk, a.bits) && Extended(sb, a, b, no, []) && SameTable(sb, a, b)
    requires Elsewhere(sb, a, b, {}) && WrittenThrough(sb, b, c, no, buf)
    ensures WrittenThrough(sb, a, c, no, buf)
  {
    OthersTwice(sb, a, b, c, no);
    OnlyRecordVia(sb, a, b, c, no, Persistent(c.inodes[no]));
    assert ContentIn(a, no) + [] == ContentIn(a, no);
  }

  lemma ThenOutOfRoom(sb: SuperBlock, a: Store, b: Store, c: Store, no: nat)
    requires Extended(sb, a, b, no, []) && SameTable(sb, a, b) && Elsewhere(sb, a, b, {}) && OutOfRoom(sb, b, c, no)
    ensures Unwritten(sb, a, c, no)
  {
    OthersTwice(sb, a, b, c, no);
    assert ContentIn(a, no) + [] == ContentIn(a, no);
  }

  lemma JustExtended(sb: SuperBlock, a: Store, b: Store, no: nat)
    requires Extended(sb, a, b, no, []) && SameTable(sb, a, b) && Elsewhere(sb, a, b, {})
    ensures Unwritten(sb, a, b, no)
  {
    assert ContentIn(a, no) + [] == ContentIn(a, no);
  }

  /** From blocks given back to a statement about states. */
  lemma ReleasedIf(sb: SuperBlock, a: Store, b: Store, no: nat)
    requires Healthy(sb, a) && Mounted(sb, b.disk, b.bits) && Present(a, no)
    requires Shrunk(a.bits, b.bits, sb.dataStartLBA, OwnedBy(a.disk, a.inodes[no]))
    requires DataSame(a.disk, b.disk, sb.dataStartLBA, {}) && b.inodes - {no} == a.inodes - {no}
    ensures Released(sb, a, b, no) && Healthy(sb, Store(b.disk, b.bits, a.inodes - {no}))
  {
    assert FileOk(a.disk, a.bits, sb.dataStartLBA, a.inodes, no) && AreaOnDisk(a.disk, a.bits, sb.dataStartLBA);
    OthersAfterRelease(a.disk, b.disk, a.bits, b.bits, sb.dataStartLBA, a.inodes, no);
    forall k | k in a.inodes && k != no
      ensures KeptIn(sb, a, b, k)
    {
      assert k in a.inodes - {no} && (a.inodes - {no})[k] == a.inodes[k];
      assert k in b.inodes - {no} && (b.inodes - {no})[k] == b.inodes[k];
    }
  }
}
