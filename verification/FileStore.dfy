/** fs/file.c: writing at the end of a file, reading, and giving the blocks of a file back
    (Inode_Release, fs/inode.c). The fields are the mounted partition of the C code: super block, disk,
    block map in memory, and the inodes in memory by number.

    Repaired here, each with its own lemma in `FileAsWritten`: the size limit (file.c:388, 423), the
    unrecorded address of the indirect table (489, 517), the count of bytes left (579), the offset of a
    read (370), the release that stops at the direct blocks (inode.c:131), the sum of 32 bits in the guard
    (388), and the list of addresses, which starts with what the memory held before (412). Also: the bit of the
    table is written through (`BlockMap.TableBitReachesDiskIff`). */
module FileStore {
  import opened Words
  import opened DiskModel
  import opened FsLayout
  import opened InodeTable
  import opened FileBlocks
  import opened FileContent
  import opened BlockMap
  import opened FileStates
  import opened Bitmaps

  lemma StoreOne(d: map<nat, Sector>, lba: nat, buf: seq<Byte>)
    requires lba in d && |buf| == SECTOR
    ensures Covers(d, lba, 1) && DiskModel.Stored(d, lba, 1, buf) == d[lba := buf]
  {
    assert buf[SECTOR * 0..SECTOR * 0 + SECTOR] == buf;
    assert DiskModel.Stored(d, lba, 1, buf).Keys == d[lba := buf].Keys;
  }

  lemma ReadOne(d: map<nat, Sector>, lba: nat)
    requires lba in d
    ensures Covers(d, lba, 1) && Bytes(d, lba, 1) == d[lba]
  {
  }

  lemma MapElsewhere(d: map<nat, Sector>, e: map<nat, Sector>, bits: seq<bool>, lba: nat, sects: nat)
    requires MapOnDisk(d, bits, lba, sects)
    requires forall k :: lba <= k < lba + sects && k in d ==> k in e && e[k] == d[k]
    ensures MapOnDisk(e, bits, lba, sects)
  {
    forall s: nat | s < sects
      ensures SectorOnDisk(e, bits, lba, sects, s)
    {
      assert SectorOnDisk(d, bits, lba, sects, s);
    }
  }

  /** Writing to the inode table touches neither the map nor the data. */
  lemma AreasKept(d: map<nat, Sector>, e: map<nat, Sector>, sb: SuperBlock, bits: seq<bool>)
    requires WellLaidOut(sb, |bits|) && OnlyTable(d, e, sb.inodeTableLBA)
    requires MapOnDisk(d, bits, sb.blockBitmapLBA, sb.blockBitmapSects) && Covers(d, sb.partLBABase, sb.secCnt)
    ensures MapOnDisk(e, bits, sb.blockBitmapLBA, sb.blockBitmapSects) && Covers(e, sb.partLBABase, sb.secCnt)
    ensures AreaOnDisk(d, bits, sb.dataStartLBA) && DataSame(d, e, sb.dataStartLBA, {})
  {
    MapElsewhere(d, e, bits, sb.blockBitmapLBA, sb.blockBitmapSects);
  }

  lemma Pieces(was: seq<Byte>, buf: seq<Byte>, written: nat, now: nat)
    requires written <= now <= |buf|
    ensures was + buf[..written] + buf[written..now] == was + buf[..now]
  {
    assert buf[..written] + buf[written..now] == buf[..now];
  }

  lemma EndOfSector(size: nat, chunk: nat)
    requires chunk > 0 && size % BLOCK + chunk <= BLOCK
    ensures (size + chunk - 1) / BLOCK == size / BLOCK
    ensures size % BLOCK + chunk == BLOCK ==> (size + chunk) % BLOCK == 0
  {
  }

  /** The 32-bit arithmetic of file.c:294: how much a read is after. */
  function ReadNeed(pos: U32, count: U32, size: U32): U32 {
    if Wrapped(pos + count) > size then Wrapped(size + 0x1_0000_0000 - pos) else count
  }

  /** It gives what is left of the file, or the count if that is less, exactly when the position lies in
      the file and the sum does not overflow. (A write of no bytes to an empty file leaves the position
      at 0xFFFFFFFF.) */
  lemma ReadNeedIsRightIff(pos: U32, count: U32, size: U32)
    ensures var left := if pos <= size then size - pos else 0;
            ReadNeed(pos, count, size) == (if count < left then count else left)
            <==> pos <= size && pos + count < 0x1_0000_0000
  {
  }

  /** Ten bytes in the file: at position 20 a read of 5 is after nearly 2^32 bytes, and so is a read of
      everything from position 5. */
  lemma ReadNeedExample()
    ensures ReadNeed(20, 5, 10) == 0xFFFF_FFF6 && ReadNeed(5, 0xFFFF_FFFF, 10) == 0xFFFF_FFFF
  {
  }

  lemma Joined(content: seq<Byte>, pos: nat, got: nat, more: nat)
    requires pos + got + more <= |content|
    ensures content[pos..pos + got] + content[pos + got..pos + got + more] == content[pos..pos + got + more]
  {
  }

  lemma FilledOneMore(s: seq<U32>, s': seq<U32>, n: nat, m: nat, taken: seq<nat>, i: nat, x: U32)
    requires Filled(s, s', n, m, taken) && NoClash(s, n, m, |taken|) && i < SLOTS && Origin(n, m, i) == |taken|
    ensures s'[i] == s[i]
    ensures Filled(s, s'[i := x], n, m, taken + [x as nat])
    ensures if s[i] == 0 then NoClash(s, n, m, |taken| + 1) else ClashWith(s, n, m, |taken|)
  {
    if s[i] == 0 {
      forall j: nat, k: nat | k < |taken| + 1
        ensures !Clash(s, n, m, j, k)
      {
        if Clash(s, n, m, j, k) && k == |taken| { OriginInjective(n, m, i, j); }
      }
    } else {
      assert Clash(s, n, m, i, |taken|);
    }
  }

  /** A block whose address goes to the table fills no slot. */
  lemma FilledBehind(s: seq<U32>, s': seq<U32>, n: nat, m: nat, taken: seq<nat>, b: nat, x: nat)
    requires Filled(s, s', n, m, taken) && NoClash(s, n, m, |taken|)
    requires DIRECT <= b && n <= b < m && |taken| == TableNeed(n, m) + b - n
    ensures Filled(s, s', n, m, taken + [x]) && NoClash(s, n, m, |taken| + 1)
  {
  }

  lemma BlockCounted(d: map<nat, Sector>, i: Inode, pos: nat, need: nat)
    requires HasContent(d, i) && 0 < need && pos + need <= i.iSize
    ensures pos / BLOCK <= (pos + need) / BLOCK < Count(i) <= ALL_BLOCKS
  {
  }

  /** A 32-bit sum that overflows at most once. */
  function Wrapped(x: nat): U32
    requires x < 0x2_0000_0000
  {
    if x < 0x1_0000_0000 then x else x - 0x1_0000_0000
  }

  /** An open file: position and inode. */
  class File {
    var fdPos: U32
    const no: nat
    constructor (n: nat)
      ensures no == n && fdPos == 0
    {
      no := n;
      fdPos := 0;
    }
  }

  class FileSystem {
    const sb: SuperBlock
    const disk: Disk
    var bits: seq<bool>
    var inodes: map<nat, Inode>

    /** The state as a value. */
    ghost function Now(): Store
      reads this, disk
    {
      Store(disk.sectors, bits, inodes)
    }

    ghost predicate Mounted()
      reads this, disk
    {
      FileStates.Mounted(sb, disk.sectors, bits)
    }

    constructor (s: SuperBlock, d: Disk, b: seq<bool>, i: map<nat, Inode>)
      ensures sb == s && disk == d && Now() == Store(d.sectors, b, i)
    {
      sb, disk, bits, inodes := s, d, b, i;
    }

    /** The scan for one bit: the lowest free block, or -1. */
    method FindFree() returns (r: int)
      ensures r == -1 <==> FreeCount(bits) == 0
      ensures IsFirstFit(bits, |bits|, 1, r)
      ensures r != -1 ==> 0 <= r < |bits| && !bits[r] && forall j :: 0 <= j < r ==> bits[j]
    {
      FreeCountZero(bits);
      r := FirstFit(bits, 1);
      forall j | 0 <= j < |bits| && (r == -1 || j < r)
        ensures bits[j]
      {
        assert !FreeRun(bits, j, 1);
      }
      if r != -1 {
        assert FreeRun(bits, r, 1);
        assert !bits[r];
      }
    }

    /** File_BitmapSync for the block map, after bit i has been changed to v. */
    method BitmapSync(i: nat, ghost was: seq<bool>, v: bool)
      requires |bits| > 0 && WellLaidOut(sb, |bits|) && i < |was| && bits == was[i := v]
      requires Covers(disk.sectors, sb.partLBABase, sb.secCnt) && sb.partLBABase + sb.secCnt <= MAX_LBA + 1
      requires MapOnDisk(disk.sectors, was, sb.blockBitmapLBA, sb.blockBitmapSects)
      modifies disk
      ensures Mounted() && ReadsAs(disk.sectors, sb.blockBitmapLBA, sb.blockBitmapSects, bits)
      ensures disk.sectors.Keys == old(disk.sectors).Keys
      ensures forall k :: k in disk.sectors && k != sb.blockBitmapLBA + i / BITS_PER_SECTOR ==>
                disk.sectors[k] == old(disk.sectors)[k]
    {
      hide Used, PackByte;
      var offSec := i / BITS_PER_SECTOR;
      var sector := PackSector(Padded(bits, sb.blockBitmapSects), offSec);
      var lba := sb.blockBitmapLBA + offSec;
      assert offSec < sb.blockBitmapSects && sb.partLBABase <= lba < sb.partLBABase + sb.secCnt;
      StoreOne(disk.sectors, lba, sector);
      SyncKeepsMap(disk.sectors, disk.sectors[lba := sector], was, sb.blockBitmapLBA, sb.blockBitmapSects, i, v);
      disk.Write(lba, sector, 1);
      MapReadsAs(disk.sectors, bits, sb.blockBitmapLBA, sb.blockBitmapSects);
    }

    /** File_AllocBlockInBlockBitmap and the File_BitmapSync that follows every use of it: the lowest
        free block is taken, in memory and on the disk. */
    method AllocBlock() returns (lba: int)
      requires Mounted()
      modifies this`bits, disk
      ensures Mounted() && |bits| == old(|bits|) && ReadsAs(disk.sectors, sb.blockBitmapLBA, sb.blockBitmapSects, bits)
      ensures lba == -1 <==> FreeCount(old(bits)) == 0
      ensures lba == -1 ==> bits == old(bits)
      ensures lba != -1 ==> lba >= sb.dataStartLBA && lba - sb.dataStartLBA < |bits|
      ensures lba != -1 ==> var i := lba - sb.dataStartLBA;
                !old(bits)[i] && (forall j :: 0 <= j < i ==> old(bits)[j]) && bits == old(bits)[i := true]
      ensures disk.sectors.Keys == old(disk.sectors).Keys
      ensures Same(old(disk.sectors))
    {
      hide Used, MapRead;
      var i := FindFree();
      if i == -1 {
        MapReadsAs(disk.sectors, bits, sb.blockBitmapLBA, sb.blockBitmapSects);
        return -1;
      }
      bits := bits[i := true];
      BitmapSync(i, old(bits), true);
      lba := sb.dataStartLBA + i;
    }

    /** AllocBlock, with the list of blocks taken since `start`. */
    method TakeBlock(ghost start: seq<bool>, ghost taken: seq<nat>) returns (lba: int, ghost now: seq<nat>)
      requires Mounted() && Grown(start, bits, sb.dataStartLBA, taken)
      modifies this`bits, disk
      ensures Mounted() && |bits| == old(|bits|) && Grown(start, bits, sb.dataStartLBA, now)
      ensures lba == -1 ==> now == taken && FreeCount(bits) == 0 && bits == old(bits)
      ensures lba != -1 ==> 0 < lba <= MAX_LBA && now == taken + [lba]
      ensures disk.sectors.Keys == old(disk.sectors).Keys
      ensures Same(old(disk.sectors))
    {
      lba := AllocBlock();
      now := taken;
      if lba != -1 {
        GrownOneMore(start, old(bits), bits, sb.dataStartLBA, taken, lba);
        now := taken + [lba];
      }
    }

    /** Sectors from the inode map on are as before. */
    ghost predicate Same(before: map<nat, Sector>)
      reads disk
    {
      && disk.sectors.Keys == before.Keys
      && forall k :: k in before && !InMapArea(sb, k) ==> disk.sectors[k] == before[k]
    }

    /** Sectors from the inode map on are as before, but for `except`. */
    ghost predicate SameBut(before: map<nat, Sector>, except: set<nat>)
      reads disk
    {
      && disk.sectors.Keys == before.Keys
      && forall k :: k in before && !InMapArea(sb, k) && k !in except ==> disk.sectors[k] == before[k]
    }

    /** Case 1 (file.c:448-472): all new blocks are direct. `all` is the block list of the C code. A
        failure keeps what was taken so far in the inode. */
    method GrowDirect(no: nat, n: nat, m: nat, first: seq<U32>)
        returns (end: Ending, all: seq<U32>, ghost taken: seq<nat>)
      requires Mounted() && no in inodes && Shaped(inodes[no]) && 1 <= n <= m <= DIRECT
      requires |first| == ALL_BLOCKS
      modifies this`bits, this`inodes, disk
      ensures Mounted() && |bits| == old(|bits|) && Same(old(disk.sectors))
      ensures Grown(old(bits), bits, sb.dataStartLBA, taken) && |taken| <= GrowthNeed(n, m)
      ensures no in inodes && Shaped(inodes[no])
      ensures inodes == old(inodes)[no := old(inodes)[no].(iSectors := inodes[no].iSectors)]
      ensures Stopped(old(inodes)[no].iSectors, n, m, taken, end)
      ensures end != AssertFails ==> Filled(old(inodes)[no].iSectors, inodes[no].iSectors, n, m, taken)
      ensures |all| == ALL_BLOCKS && all[n - 1] == first[n - 1]
      ensures end == Done ==> forall b :: n <= b < m ==> all[b] == taken[b - n]
    {
      hide FileStates.Mounted, Grown, NoClash, Filled;
      all, taken := first, [];
      ghost var s := inodes[no].iSectors;
      GrownNothing(bits, sb.dataStartLBA);
      FilledNothing(s, n, m);
      var b := n;
      while b < m
        invariant n <= b <= m && |taken| == b - n && |all| == ALL_BLOCKS
        invariant Mounted() && |bits| == old(|bits|) && Same(old(disk.sectors))
        invariant Grown(old(bits), bits, sb.dataStartLBA, taken)
        invariant no in inodes && Shaped(inodes[no])
        invariant inodes == old(inodes)[no := old(inodes)[no].(iSectors := inodes[no].iSectors)]
        invariant Filled(s, inodes[no].iSectors, n, m, taken) && NoClash(s, n, m, |taken|)
        invariant all[n - 1] == first[n - 1] && forall i :: n <= i < b ==> all[i] == taken[i - n]
      {
        var lba;
        ghost var before := taken;
        lba, taken := TakeBlock(old(bits), taken);
        if lba == -1 { return NoBlock, all, taken; }
        FilledOneMore(s, inodes[no].iSectors, n, m, before, b, lba);
        if inodes[no].iSectors[b] != 0 { return AssertFails, all, taken; }
        inodes := inodes[no := inodes[no].(iSectors := inodes[no].iSectors[b := lba])];
        all := all[b := lba];
        b := b + 1;
      }
      end := Done;
    }

    /** How far making room got, as far as the assertions on the slots are concerned. */
    ghost predicate Stopped(s: seq<U32>, n: nat, m: nat, taken: seq<nat>, end: Ending)
      requires n <= m
      reads this`bits
    {
      match end
      case Done => |taken| == GrowthNeed(n, m) && NoClash(s, n, m, |taken|)
      case NoBlock => |taken| < GrowthNeed(n, m) && NoClash(s, n, m, |taken|) && FreeCount(bits) == 0
      case AssertFails => |taken| > 0 && ClashWith(s, n, m, |taken| - 1)
    }

    lemma FilledNothing(s: seq<U32>, n: nat, m: nat)
      requires |s| == SLOTS
      ensures Filled(s, s, n, m, []) && NoClash(s, n, m, 0)
    {
    }

    method LoadBlock(lba: nat) returns (buf: seq<Byte>)
      requires Mounted() && InArea(bits, sb.dataStartLBA, lba)
      ensures lba in disk.sectors && buf == disk.sectors[lba]
    {
      assert sb.partLBABase <= lba < sb.partLBABase + sb.secCnt;
      ReadOne(disk.sectors, lba);
      buf := disk.Read(lba, 1);
    }

    /** A sector of the data area is written; the map on the disk is elsewhere. */
    method StoreBlock(lba: nat, buf: seq<Byte>)
      requires Mounted() && InArea(bits, sb.dataStartLBA, lba) && |buf| == SECTOR
      modifies disk
      ensures Mounted() && lba in old(disk.sectors) && disk.sectors == old(disk.sectors)[lba := buf]
    {
      assert sb.partLBABase <= lba < sb.partLBABase + sb.secCnt;
      StoreOne(disk.sectors, lba, buf);
      MapElsewhere(disk.sectors, disk.sectors[lba := buf], bits, sb.blockBitmapLBA, sb.blockBitmapSects);
      disk.Write(lba, buf, 1);
    }

    /** The loop of case 2 (file.c:491-515), after the table has been taken; `s` are the slots before it. */
    method FillAcross(no: nat, n: nat, m: nat, first: seq<U32>, ghost s: seq<U32>, ghost start: seq<bool>,
                      ghost table: nat)
        returns (end: Ending, all: seq<U32>, ghost taken: seq<nat>)
      requires Mounted() && no in inodes && Shaped(inodes[no]) && 1 <= n <= DIRECT < m <= ALL_BLOCKS
      requires |first| == ALL_BLOCKS && forall b :: n <= b < ALL_BLOCKS ==> first[b] == 0
      requires Grown(start, bits, sb.dataStartLBA, [table])
      requires Filled(s, inodes[no].iSectors, n, m, [table]) && NoClash(s, n, m, 1)
      modifies this`bits, this`inodes, disk
      ensures Mounted() && |bits| == old(|bits|) && Same(old(disk.sectors))
      ensures Grown(start, bits, sb.dataStartLBA, taken) && 0 < |taken| <= GrowthNeed(n, m) && taken[0] == table
      ensures no in inodes && Shaped(inodes[no])
      ensures inodes == old(inodes)[no := old(inodes)[no].(iSectors := inodes[no].iSectors)]
      ensures Stopped(s, n, m, taken, end)
      ensures end != AssertFails ==> Filled(s, inodes[no].iSectors, n, m, taken)
      ensures |all| == ALL_BLOCKS && all[n - 1] == first[n - 1]
      ensures end == Done ==> forall b :: n <= b < ALL_BLOCKS ==> all[b] == if b < m then taken[1 + b - n] else 0
    {
      hide FileStates.Mounted, Grown, NoClash, Filled;
      all, taken := first, [table];
      var b := n;
      while b < m
        invariant n <= b <= m && |taken| == b - n + 1 && taken[0] == table && |all| == ALL_BLOCKS
        invariant Mounted() && |bits| == old(|bits|) && Same(old(disk.sectors))
        invariant Grown(start, bits, sb.dataStartLBA, taken)
        invariant no in inodes && Shaped(inodes[no])
        invariant inodes == old(inodes)[no := old(inodes)[no].(iSectors := inodes[no].iSectors)]
        invariant Filled(s, inodes[no].iSectors, n, m, taken) && NoClash(s, n, m, |taken|)
        invariant all[n - 1] == first[n - 1]
        invariant forall i :: n <= i < ALL_BLOCKS ==> all[i] == if i < b then taken[1 + i - n] else 0
      {
        var lba;
        ghost var before := taken;
        lba, taken := TakeBlock(start, taken);
        if lba == -1 { return NoBlock, all, taken; }
        if b < DIRECT {
          FilledOneMore(s, inodes[no].iSectors, n, m, before, b, lba);
          if inodes[no].iSectors[b] != 0 { return AssertFails, all, taken; }
          inodes := inodes[no := inodes[no].(iSectors := inodes[no].iSectors[b := lba])];
        } else {
          FilledBehind(s, inodes[no].iSectors, n, m, before, b, lba);
        }
        all := all[b := lba];
        b := b + 1;
      }
      end := Done;
    }

    /** Case 2 (file.c:473-517): the table and new blocks, direct ones first. The addresses behind the
        table are collected in `all` and written at the end. */
    method GrowAcross(no: nat, n: nat, m: nat, first: seq<U32>)
        returns (end: Ending, all: seq<U32>, ghost taken: seq<nat>)
      requires Mounted() && no in inodes && Shaped(inodes[no]) && 1 <= n <= DIRECT < m <= ALL_BLOCKS
      requires |first| == ALL_BLOCKS && forall b :: n <= b < ALL_BLOCKS ==> first[b] == 0
      modifies this`bits, this`inodes, disk
      ensures Mounted() && |bits| == old(|bits|)
      ensures Grown(old(bits), bits, sb.dataStartLBA, taken) && |taken| <= GrowthNeed(n, m)
      ensures no in inodes && Shaped(inodes[no])
      ensures inodes == old(inodes)[no := old(inodes)[no].(iSectors := inodes[no].iSectors)]
      ensures Stopped(old(inodes)[no].iSectors, n, m, taken, end)
      ensures end != AssertFails ==> Filled(old(inodes)[no].iSectors, inodes[no].iSectors, n, m, taken)
      ensures |all| == ALL_BLOCKS && all[n - 1] == first[n - 1]
      ensures end == Done ==> forall b :: n <= b < ALL_BLOCKS ==> all[b] == if b < m then taken[1 + b - n] else 0
      ensures end == Done ==> SameBut(old(disk.sectors), {taken[0]}) && taken[0] in disk.sectors
                              && disk.sectors[taken[0]] == PutWords(all[DIRECT..])
      ensures end != Done ==> Same(old(disk.sectors))
    {
      ghost var s := inodes[no].iSectors;
      var lba;
      end, lba, taken := TakeTable(no, n, m);
      if end != Done { return end, first, taken; }
      end, all, taken := FillAcross(no, n, m, first, s, old(bits), lba);
      if end == Done { StoreBlock(lba, PutWords(all[DIRECT..])); }
    }

    /** The indirect table of a file that has none (file.c:478-489). */
    method TakeTable(no: nat, ghost n: nat, ghost m: nat) returns (end: Ending, lba: int, ghost taken: seq<nat>)
      requires Mounted() && no in inodes && Shaped(inodes[no]) && 1 <= n <= DIRECT < m <= ALL_BLOCKS
      modifies this`bits, this`inodes, disk
      ensures Mounted() && |bits| == old(|bits|) && Same(old(disk.sectors))
      ensures Grown(old(bits), bits, sb.dataStartLBA, taken) && |taken| <= 1
      ensures no in inodes && Shaped(inodes[no])
      ensures inodes == old(inodes)[no := old(inodes)[no].(iSectors := inodes[no].iSectors)]
      ensures end != Done ==> Stopped(old(inodes)[no].iSectors, n, m, taken, end)
      ensures end != AssertFails ==> Filled(old(inodes)[no].iSectors, inodes[no].iSectors, n, m, taken)
      ensures end == Done ==> 0 < lba <= MAX_LBA && taken == [lba as nat] && InArea(bits, sb.dataStartLBA, lba)
      ensures end == Done ==> NoClash(old(inodes)[no].iSectors, n, m, 1)
    {
      hide NoClash, Filled, Grown, FileStates.Mounted;
      ghost var s := inodes[no].iSectors;
      GrownNothing(bits, sb.dataStartLBA);
      FilledNothing(s, n, m);
      lba, taken := TakeBlock(bits, []);
      if lba == -1 { return NoBlock, lba, taken; }
      assert taken == [lba as nat];
      GrownInArea(old(bits), bits, sb.dataStartLBA, taken, 0);
      FilledOneMore(s, s, n, m, [], DIRECT, lba);
      if inodes[no].iSectors[DIRECT] != 0 { return AssertFails, lba, taken; }
      inodes := inodes[no := inodes[no].(iSectors := inodes[no].iSectors[DIRECT := lba])];
      end := Done;
    }

    /** Case 3 (file.c:518-544): the table is on the disk already. */
    method GrowIndirect(no: nat, n: nat, m: nat) returns (ok: bool, all: seq<U32>, ghost taken: seq<nat>)
      requires Mounted() && no in inodes && Shaped(inodes[no]) && DIRECT < n <= m <= ALL_BLOCKS
      requires inodes[no].iSectors[DIRECT] != 0                             // asserted at file.c:520
      requires InArea(bits, sb.dataStartLBA, inodes[no].iSectors[DIRECT])
      modifies this`bits, disk
      ensures Mounted() && |bits| == old(|bits|)
      ensures Grown(old(bits), bits, sb.dataStartLBA, taken)
      ensures |taken| <= m - n && (ok <==> |taken| == m - n)
      ensures |all| == ALL_BLOCKS
      ensures var lba := inodes[no].iSectors[DIRECT];
              && lba in old(disk.sectors) && lba in disk.sectors
              && (forall b :: DIRECT <= b < n || n + |taken| <= b < ALL_BLOCKS ==>
                    all[b] == GetWords(old(disk.sectors)[lba])[b - DIRECT])
              && (ok ==> SameBut(old(disk.sectors), {lba}) && disk.sectors[lba] == PutWords(all[DIRECT..]))
      ensures forall b :: n <= b < n + |taken| ==> all[b] == taken[b - n]
      ensures !ok ==> FreeCount(bits) == 0 && Same(old(disk.sectors))
    {
      var table := inodes[no].iSectors[DIRECT];
      var buf := LoadBlock(table);
      all := seq(DIRECT, _ => 0) + GetWords(buf);
      taken := [];
      GrownNothing(bits, sb.dataStartLBA);
      var b := n;
      while b < m
        invariant n <= b <= m && |taken| == b - n && |all| == ALL_BLOCKS
        invariant Mounted() && |bits| == old(|bits|) && Same(old(disk.sectors))
        invariant Grown(old(bits), bits, sb.dataStartLBA, taken)
        invariant forall i :: DIRECT <= i < n || b <= i < ALL_BLOCKS ==> all[i] == GetWords(buf)[i - DIRECT]
        invariant forall i :: n <= i < b ==> all[i] == taken[i - n]
      {
        var lba;
        lba, taken := TakeBlock(old(bits), taken);
        if lba == -1 { return false, all, taken; }
        all := all[b := lba];
        b := b + 1;
      }
      StoreBlock(table, PutWords(all[DIRECT..]));
      ok := true;
    }

    // -------------------------------------------------------------- making room

    /** What asking for room for m data blocks in a file of n leaves: on success a grown file whose
        relevant addresses are in `all`, on failure a full map and a file that is still sound. */
    ghost predicate RoomMade(d: map<nat, Sector>, was: seq<bool>, files: map<nat, Inode>, no: nat, n: nat, m: nat,
                             end: Ending, all: seq<U32>, taken: seq<nat>)
      requires no in files && Shaped(files[no]) && 1 <= n <= m <= ALL_BLOCKS
      reads this, disk
    {
      && Mounted() && |bits| == |was| && Grown(was, bits, sb.dataStartLBA, taken) && |taken| <= GrowthNeed(n, m)
      && no in inodes && Shaped(inodes[no])
      && inodes == files[no := files[no].(iSectors := inodes[no].iSectors)]
      && Stopped(files[no].iSectors, n, m, taken, end)
      && (end == Done ==>
            && GrewTo(d, disk.sectors, files[no].iSectors, inodes[no].iSectors, n, m, taken)
            && |all| == ALL_BLOCKS
            && (forall b :: n - 1 <= b < m ==> all[b] == AllOf(disk.sectors, inodes[no].iSectors)[b])
            && SameBut(d, if m > DIRECT then {inodes[no].iSectors[DIRECT]} else {}))
      && (end == NoBlock ==>
            && Same(d)
            && FellShort(d, disk.sectors, bits, sb.dataStartLBA, files[no].iSectors, inodes[no].iSectors, n, m, taken))
    }

    /** The file has n data blocks. */
    ghost predicate Has(no: nat, n: nat)
      reads this, disk
    {
      && no in inodes && Shaped(inodes[no]) && 1 <= n <= ALL_BLOCKS
      && SoundAt(disk.sectors, bits, sb.dataStartLBA, inodes[no].iSectors, n)
    }

    method RoomDirect(no: nat, n: nat, m: nat) returns (end: Ending, all: seq<U32>, ghost taken: seq<nat>)
      requires Mounted() && Has(no, n) && n <= m <= DIRECT
      modifies this`bits, this`inodes, disk
      ensures RoomMade(old(disk.sectors), old(bits), old(inodes), no, n, m, end, all, taken)
    {
      hide Filled, NoClash, SoundAt;
      ghost var d, was, s := disk.sectors, bits, inodes[no].iSectors;
      all := seq(ALL_BLOCKS, _ => 0);
      end, all, taken := GrowDirect(no, n, m, all[n - 1 := inodes[no].iSectors[n - 1]]);
      if end == Done {
        GrewDirectly(d, disk.sectors, s, inodes[no].iSectors, n, taken);
        GatheredDirect(d, disk.sectors, s, inodes[no].iSectors, n, m, taken, all);
      } else if end == NoBlock {
        ShortOfBlocks(d, disk.sectors, was, bits, sb.dataStartLBA, s, inodes[no].iSectors, n, m, taken);
      }
    }

    method RoomAcross(no: nat, n: nat, m: nat) returns (end: Ending, all: seq<U32>, ghost taken: seq<nat>)
      requires Mounted() && Has(no, n) && n <= DIRECT < m <= ALL_BLOCKS
      modifies this`bits, this`inodes, disk
      ensures RoomMade(old(disk.sectors), old(bits), old(inodes), no, n, m, end, all, taken)
    {
      hide NoClash, SoundAt;
      ghost var d, was, s := disk.sectors, bits, inodes[no].iSectors;
      all := seq(ALL_BLOCKS, _ => 0);
      end, all, taken := GrowAcross(no, n, m, all[n - 1 := inodes[no].iSectors[n - 1]]);
      if end == Done {
        assert inodes[no].iSectors[DIRECT] == taken[0] && InArea(was, sb.dataStartLBA, taken[0]);
        TableWritten(disk.sectors, inodes[no].iSectors, all);
        FileBlocks.GrewAcross(d, disk.sectors, s, inodes[no].iSectors, n, m, taken, all);
        GatheredDirect(d, disk.sectors, s, inodes[no].iSectors, n, m, taken, all);
      } else if end == NoBlock {
        ShortOfBlocks(d, disk.sectors, was, bits, sb.dataStartLBA, s, inodes[no].iSectors, n, m, taken);
      }
    }

    method RoomIndirect(no: nat, n: nat, m: nat) returns (end: Ending, all: seq<U32>, ghost taken: seq<nat>)
      requires Mounted() && Has(no, n) && DIRECT < n <= m <= ALL_BLOCKS
      modifies this`bits, disk
      ensures RoomMade(old(disk.sectors), old(bits), old(inodes), no, n, m, end, all, taken)
    {
      ghost var d, was, s := disk.sectors, bits, inodes[no].iSectors;
      SlotParts(d, s, n, DIRECT);
      var ok;
      ok, all, taken := GrowIndirect(no, n, m);
      end := if ok then Done else NoBlock;
      if ok {
        TableWritten(disk.sectors, s, all);
        FileBlocks.GrewIndirect(d, disk.sectors, was, sb.dataStartLBA, s, n, m, taken, all);
        GatheredIndirect(d, disk.sectors, s, n, m, taken, all);
      } else {
        IndirectFailure(d, disk.sectors, was, bits, sb.dataStartLBA, s, n, m, taken);
      }
    }

    /** No new block is needed (file.c:438-447). */
    method RoomNone(no: nat, n: nat) returns (all: seq<U32>)
      requires Mounted() && Has(no, n)
      ensures RoomMade(disk.sectors, bits, inodes, no, n, n, Done, all, [])
    {
      ghost var d, s := disk.sectors, inodes[no].iSectors;
      all := seq(ALL_BLOCKS, _ => 0);
      if n <= DIRECT {
        all := all[n - 1 := inodes[no].iSectors[n - 1]];
      } else {
        SlotParts(d, s, n, DIRECT);
        var buf := LoadBlock(inodes[no].iSectors[DIRECT]);
        all := all[..DIRECT] + GetWords(buf);
      }
      AllParts(d, s, n - 1);
      GrewNothing(d, bits, sb.dataStartLBA, s, n);
      GrownNothing(bits, sb.dataStartLBA);
    }

    /** The block bookkeeping of File_Write (file.c:436-545). */
    method MakeRoom(no: nat, n: nat, m: nat) returns (end: Ending, all: seq<U32>, ghost taken: seq<nat>)
      requires Mounted() && Has(no, n) && n <= m <= ALL_BLOCKS
      modifies this`bits, this`inodes, disk
      ensures RoomMade(old(disk.sectors), old(bits), old(inodes), no, n, m, end, all, taken)
    {
      if m == n {
        end, taken := Done, [];
        all := RoomNone(no, n);
      } else if m <= DIRECT {
        end, all, taken := RoomDirect(no, n, m);
      } else if n <= DIRECT {
        end, all, taken := RoomAcross(no, n, m);
      } else {
        end, all, taken := RoomIndirect(no, n, m);
      }
    }

    // -------------------------------------------------------------- the data

    /** Patch the sector behind the end of the content; only the first one is read before. */
    method WriteChunk(secLBA: nat, firstWrite: bool, part: seq<Byte>, ghost seen: seq<U32>, ghost m: nat, size: nat)
      requires Mounted() && Placed(disk.sectors, seen, m) && size / BLOCK < m && seen[size / BLOCK] == secLBA
      requires InArea(bits, sb.dataStartLBA, secLBA) && size % BLOCK + |part| <= BLOCK
      requires firstWrite || size % BLOCK == 0
      modifies disk
      ensures Mounted() && Placed(disk.sectors, seen, m)
      ensures Seen(disk.sectors, seen, size + |part|) == Seen(old(disk.sectors), seen, size) + part
      ensures SameBut(old(disk.sectors), {secLBA})
    {
      ghost var d := disk.sectors;
      var ioBuf := Zeros(SECTOR);
      if firstWrite { ioBuf := LoadBlock(secLBA); }
      ioBuf := Splice(ioBuf, size % BLOCK, part);
      StoreBlock(secLBA, ioBuf);
      AppendChunk(d, disk.sectors, seen, m, size, ioBuf, part);
    }

    /** How far the loop of file.c:555-582 has come: `was` is the content before it, `d` the disk before
        it, `except` the blocks it may write. */
    ghost predicate Written(d: map<nat, Sector>, was: seq<Byte>, buf: seq<Byte>, written: nat, seen: seq<U32>, m: nat,
                            except: set<nat>)
      reads this, disk
    {
      && Mounted() && Placed(disk.sectors, seen, m) && written <= |buf| && |was| + |buf| < m * BLOCK
      && Seen(disk.sectors, seen, |was| + written) == was + buf[..written]
      && SameBut(d, except)
    }

    /** One turn of the loop: at most to the end of a sector. */
    method WriteStep(file: File, buf: seq<Byte>, all: seq<U32>, firstWrite: bool, written: nat,
                     ghost d: map<nat, Sector>, ghost was: seq<Byte>, ghost seen: seq<U32>, ghost m: nat,
                     ghost except: set<nat>, ghost files: map<nat, Inode>)
        returns (now: nat)
      requires Written(d, was, buf, written, seen, m, except) && written < |buf|
      requires file.no in files && Shaped(files[file.no]) && |was| + |buf| < 0x1_0000_0000
      requires inodes == files[file.no := files[file.no].(iSize := |was| + written)]
      requires m <= ALL_BLOCKS && |all| == ALL_BLOCKS && |seen| == ALL_BLOCKS
      requires var b := (|was| + written) / BLOCK;
               all[b] == seen[b] && InArea(bits, sb.dataStartLBA, seen[b]) && seen[b] in except
      requires firstWrite || (|was| + written) % BLOCK == 0
      modifies this`inodes, disk, file`fdPos
      ensures written < now <= |buf| && Written(d, was, buf, now, seen, m, except)
      ensures inodes == files[file.no := files[file.no].(iSize := |was| + now)]
      ensures file.fdPos == Wrapped(old(file.fdPos) + now - written)
      ensures now < |buf| ==> (|was| + now) % BLOCK == 0
    {
      hide FileStates.Mounted, Placed, Seen, InArea;
      var size := inodes[file.no].iSize;
      var secOff := size % BLOCK;
      var chunk := if |buf| - written > BLOCK - secOff then BLOCK - secOff else |buf| - written;
      WriteChunk(all[size / BLOCK], firstWrite, buf[written..written + chunk], seen, m, size);
      inodes := inodes[file.no := inodes[file.no].(iSize := size + chunk)];
      file.fdPos := Wrapped(file.fdPos + chunk);
      EndOfSector(size, chunk);
      now := written + chunk;
      Pieces(was, buf, written, now);
    }

    /** The loop. `seen` is the block list the disk holds for the file. */
    method WriteData(file: File, buf: seq<Byte>, all: seq<U32>, ghost seen: seq<U32>, ghost m: nat)
      requires Mounted() && file.no in inodes && Shaped(inodes[file.no])
      requires m <= ALL_BLOCKS && |all| == ALL_BLOCKS
      requires (inodes[file.no].iSize + |buf|) / BLOCK + 1 == m
      requires Placed(disk.sectors, seen, m) && |seen| == ALL_BLOCKS
      requires forall b :: inodes[file.no].iSize / BLOCK <= b < m ==>
                 all[b] == seen[b] && InArea(bits, sb.dataStartLBA, seen[b])
      modifies this`inodes, disk, file`fdPos
      ensures var size := old(inodes)[file.no].iSize;
              && inodes == old(inodes)[file.no := old(inodes)[file.no].(iSize := size + |buf|)]
              && file.fdPos == Wrapped(size + 0xFFFF_FFFF + |buf|)
              && Mounted() && Placed(disk.sectors, seen, m)
              && SameBut(old(disk.sectors), BlocksFrom(seen, size / BLOCK, m))
              && Seen(disk.sectors, seen, size + |buf|) == Seen(old(disk.sectors), seen, size) + buf
    {
      var no := file.no;
      hide FileStates.Mounted, Seen;
      ghost var d, files, size := disk.sectors, inodes, inodes[no].iSize;
      ghost var was, except := Seen(d, seen, size), BlocksFrom(seen, size / BLOCK, m);
      file.fdPos := Wrapped(inodes[no].iSize + 0xFFFF_FFFF);
      var firstWrite, written := true, 0;
      assert was + buf[..0] == was;
      while written < |buf|
        invariant 0 <= written <= |buf| && Written(d, was, buf, written, seen, m, except)
        invariant inodes == files[no := files[no].(iSize := |was| + written)]
        invariant file.fdPos == Wrapped(|was| + 0xFFFF_FFFF + written)
        invariant firstWrite || written == |buf| || (|was| + written) % BLOCK == 0
      {
        ghost var at := (|was| + written) / BLOCK;
        assert |was| / BLOCK <= at < m;
        assert seen[at] in except;
        written := WriteStep(file, buf, all, firstWrite, written, d, was, seen, m, except, files);
        firstWrite := false;
      }
      assert buf[..written] == buf;
    }

    // -------------------------------------------------------------- File_Write

    ghost predicate Healthy()
      reads this, disk
    {
      FileStates.Healthy(sb, Now())
    }

    lemma AllPresent(a: Store, no: nat)
      requires FileStates.Healthy(sb, a) && no in a.inodes
      ensures FileOk(a.disk, a.bits, sb.dataStartLBA, a.inodes, no) && Present(a, no)
      ensures Covers(a.disk, sb.inodeTableLBA, TABLE_SECTS) && AreaOnDisk(a.disk, a.bits, sb.dataStartLBA)
    {
      assert FileOk(a.disk, a.bits, sb.dataStartLBA, a.inodes, no);
      SoundIsReadable(a.disk, a.bits, sb.dataStartLBA, a.inodes[no].iSectors, Count(a.inodes[no]));
    }

    /** From the lemmas about disks and inodes to a statement about states. */
    lemma Grew(a: Store, b: Store, no: nat, buf: seq<Byte>)
      requires Present(a, no) && Present(b, no)
      requires a.inodes[no].iSize + |buf| < ALL_BLOCKS * BLOCK
      requires b.inodes == a.inodes[no := a.inodes[no].(iSectors := b.inodes[no].iSectors,
                                                        iSize := a.inodes[no].iSize + |buf|)]
      requires forall k {:trigger a.inodes[k]} :: k in a.inodes && k != no ==>
                 Kept(a.disk, b.disk, a.bits, sb.dataStartLBA, a.inodes[k])
      requires ContentIn(b, no) == ContentIn(a, no) + buf
      ensures Extended(sb, a, b, no, buf)
    {
    }

    lemma Failed(a: Store, b: Store, no: nat)
      requires Present(a, no) && Present(b, no) && SameTable(sb, a, b) && FreeCount(b.bits) == 0
      requires Elsewhere(sb, a, b, {})
      requires b.inodes == a.inodes[no := a.inodes[no].(iSectors := b.inodes[no].iSectors)]
      requires forall k {:trigger a.inodes[k]} :: k in a.inodes && k != no ==>
                 Kept(a.disk, b.disk, a.bits, sb.dataStartLBA, a.inodes[k])
      requires ContentIn(b, no) == ContentIn(a, no)
      ensures OutOfRoom(sb, a, b, no)
    {
    }

    /** file.c:394-404: the first write to a file takes its first block. */
    method FirstBlock(no: nat) returns (ok: bool, ghost taken: seq<nat>)
      requires Healthy() && no in inodes && Shaped(inodes[no])
      modifies this`bits, this`inodes, disk
      ensures Healthy() && Extended(sb, old(Now()), Now(), no, []) && SameTable(sb, old(Now()), Now())
      ensures Elsewhere(sb, old(Now()), Now(), {})
      ensures Grown(old(bits), bits, sb.dataStartLBA, taken)
      ensures no in inodes && Shaped(inodes[no])
      ensures inodes == old(inodes)[no := old(inodes)[no].(iSectors := inodes[no].iSectors)]
      ensures |taken| == if ok && old(inodes)[no].iSectors[0] == 0 then 1 else 0
      ensures taken == [] ==> inodes == old(inodes)
      ensures taken != [] ==> taken[0] == inodes[no].iSectors[0]
      ensures taken != [] ==> inodes[no].iSectors == old(inodes)[no].iSectors[0 := inodes[no].iSectors[0]]
      ensures ok ==> inodes[no].iSectors[0] != 0
      ensures !ok ==> FreeCount(bits) == 0 && old(inodes)[no].iSectors[0] == 0
    {
      hide SoundAt, AllSound, Kept, MapOnDisk, Content, Seen, TableOf, HasContent;
      ghost var a := Now();
      AllPresent(a, no);
      GrownNothing(bits, sb.dataStartLBA);
      assert ContentIn(a, no) + [] == ContentIn(a, no);
      if inodes[no].iSectors[0] != 0 {
        AllKept(a.disk, a.disk, a.bits, sb.dataStartLBA, a.inodes);
        Grew(a, Now(), no, []);
        return true, [];
      }
      var lba;
      lba, taken := TakeBlock(bits, []);
      if lba == -1 {
        AllKept(a.disk, disk.sectors, bits, sb.dataStartLBA, inodes);
        KeptContent(a.disk, disk.sectors, bits, sb.dataStartLBA, inodes[no]);
        Grew(a, Now(), no, []);
        return false, [];
      }
      assert taken == [lba as nat];
      inodes := inodes[no := inodes[no].(iSectors := inodes[no].iSectors[0 := lba])];
      FirstBlockOutcome(a.disk, disk.sectors, a.bits, bits, sb.dataStartLBA, a.inodes, no, lba);
      Grew(a, Now(), no, []);
      ok := true;
    }

    /** Room for `count` more bytes has been made since state a, in which all was well. */
    ghost predicate RoomReadyFor(a: Store, no: nat, count: nat, all: seq<U32>, taken: seq<nat>)
      requires Present(a, no) && a.inodes[no].iSize + count < ALL_BLOCKS * BLOCK
      reads this, disk
    {
      && FileStates.Healthy(sb, a) && a.inodes[no].iSectors[0] != 0
      && RoomMade(a.disk, a.bits, a.inodes, no, Count(a.inodes[no]), LastBlocks(a.inodes[no].iSize, count),
                  Done, all, taken)
    }

    /** file.c:429-545. */
    method TryRoom(no: nat, count: nat) returns (end: Ending, all: seq<U32>, ghost taken: seq<nat>)
      requires Healthy() && no in inodes && Shaped(inodes[no])
      requires inodes[no].iSectors[0] != 0 && inodes[no].iSize + count < ALL_BLOCKS * BLOCK
      modifies this`bits, this`inodes, disk
      ensures Grown(old(bits), bits, sb.dataStartLBA, taken) && Present(old(Now()), no)
      ensures end == Wanted(old(inodes)[no], count, FreeCount(old(bits)))
      ensures end == Done ==> |taken| == RoomFor(old(inodes)[no].iSize, count)
      ensures end == Done ==> RoomReadyFor(old(Now()), no, count, all, taken)
      ensures end == NoBlock ==> Healthy() && OutOfRoom(sb, old(Now()), Now(), no)
                                 && SlotsFilled(old(inodes)[no], inodes[no].iSectors, count, taken)
    {
      hide AllSound, Filled, NoClash, ClashWith, Halts, SoundAt, Grown, GrewTo, Kept, MapOnDisk, Content, Seen, TableOf;
      ghost var a := Now();
      AllPresent(a, no);
      var n := inodes[no].iSize / BLOCK + 1;
      var m := LastBlocks(inodes[no].iSize, count);
      end, all, taken := MakeRoom(no, n, m);
      EndingDecided(a.bits, bits, sb.dataStartLBA, a.inodes[no].iSectors, n, m, taken, end);
      if end == NoBlock {
        NotAppended(a.disk, disk.sectors, a.bits, bits, sb.dataStartLBA, a.inodes, no, inodes[no].iSectors, m, taken);
        Failed(a, Now(), no);
      }
    }

    /** How making room for a file with its first block in place ends. */
    ghost function Wanted(i: Inode, count: nat, free: nat): Ending
      requires Shaped(i)
    {
      if WriteHalts(i, count, free) then AssertFails
      else if free >= RoomFor(i.iSize, count) then Done else NoBlock
    }

    ghost predicate Beyond(d: map<nat, Sector>, e: map<nat, Sector>, except: set<nat>) {
      d.Keys == e.Keys && forall k :: k in d && !InMapArea(sb, k) && k !in except ==> e[k] == d[k]
    }

    /** Room has been made and the data written: all other sectors are as they were. */
    lemma OnlyOwn(a: Store, d1: map<nat, Sector>, b: Store, no: nat, n: nat, m: nat)
      requires WellLaidOut(sb, |b.bits|) && AreaOnDisk(d1, b.bits, sb.dataStartLBA)
      requires Present(b, no) && Count(b.inodes[no]) == m && 1 <= n <= m
      requires var s' := b.inodes[no].iSectors;
               && SoundAt(d1, b.bits, sb.dataStartLBA, s', m)
               && Beyond(a.disk, d1, if m > DIRECT then {s'[DIRECT]} else {})
               && Beyond(d1, b.disk, BlocksFrom(AllOf(d1, s'), n - 1, m))
      ensures Elsewhere(sb, a, b, BlocksIn(b, no))
    {
      hide SoundAt, AllOf, Owned;
      ghost var s' := b.inodes[no].iSectors;
      assert DataSame(d1, b.disk, sb.dataStartLBA, BlocksFrom(AllOf(d1, s'), n - 1, m));
      forall k | k in a.disk && !InMapArea(sb, k) && k !in BlocksIn(b, no)
        ensures b.disk[k] == a.disk[k]
      {
        WrittenOnly(a.disk, d1, b.disk, b.bits, sb.dataStartLBA, s', n, m, k);
      }
    }

    /** Room for the buffer has been made and the data written: what that makes of the file and of all else. */
    lemma Finished(a: Store, d1: map<nat, Sector>, b: Store, no: nat, m: nat, taken: seq<nat>, buf: seq<Byte>)
      requires FileStates.Healthy(sb, a) && FileStates.Mounted(sb, b.disk, b.bits) && no in a.inodes && no in b.inodes
      requires Shaped(a.inodes[no]) && Shaped(b.inodes[no]) && Count(a.inodes[no]) > 0
      requires (a.inodes[no].iSize + |buf|) / BLOCK + 1 == m <= ALL_BLOCKS
      requires b.inodes == a.inodes[no := a.inodes[no].(iSectors := b.inodes[no].iSectors,
                                                        iSize := a.inodes[no].iSize + |buf|)]
      requires Grown(a.bits, b.bits, sb.dataStartLBA, taken) && AreaOnDisk(d1, b.bits, sb.dataStartLBA)
      requires GrewTo(a.disk, d1, a.inodes[no].iSectors, b.inodes[no].iSectors, Count(a.inodes[no]), m, taken)
      requires var s' := b.inodes[no].iSectors;
               && Beyond(a.disk, d1, if m > DIRECT then {s'[DIRECT]} else {})
               && Beyond(d1, b.disk, BlocksFrom(AllOf(d1, s'), Count(a.inodes[no]) - 1, m))
               && Placed(d1, AllOf(d1, s'), m) && Placed(b.disk, AllOf(d1, s'), m)
               && Seen(b.disk, AllOf(d1, s'), a.inodes[no].iSize + |buf|)
                    == Seen(d1, AllOf(d1, s'), a.inodes[no].iSize) + buf
      ensures FileStates.Healthy(sb, b) && Extended(sb, a, b, no, buf) && SameTable(sb, a, b)
      ensures Elsewhere(sb, a, b, BlocksIn(b, no))
    {
      hide SoundAt, Grown, GrewTo, AllSound, Kept, MapOnDisk, Content, Seen, TableOf, HasContent;
      AllPresent(a, no);
      ghost var i, s', base := a.inodes[no], b.inodes[no].iSectors, sb.dataStartLBA;
      WrittenInRoom(a.disk, d1, b.disk, a.bits, b.bits, base, sb.inodeTableLBA, a.inodes, no, b.inodes[no], m, taken,
                    buf);
      Grew(a, b, no, buf);
      hide Elsewhere, Extended, SameTable;
      GrowKeepsSound(a.disk, d1, a.bits, b.bits, base, i.iSectors, s', Count(i), m, taken);
      FirstSlotFilled(d1, b.bits, base, s', m);
      OnlyOwn(a, d1, b, no, Count(i), m);
    }

    /** The data of a write for which room has been made since state a. */
    method WriteInRoom(file: File, buf: seq<Byte>, all: seq<U32>, ghost a: Store, ghost taken: seq<nat>)
      requires Present(a, file.no) && a.inodes[file.no].iSize + |buf| < ALL_BLOCKS * BLOCK
      requires RoomReadyFor(a, file.no, |buf|, all, taken)
      modifies this`inodes, disk, file`fdPos
      ensures Healthy() && file.no in inodes && Extended(sb, a, Now(), file.no, buf) && SameTable(sb, a, Now())
      ensures Elsewhere(sb, a, Now(), BlocksIn(Now(), file.no))
      ensures file.fdPos == Wrapped(a.inodes[file.no].iSize + 0xFFFF_FFFF + |buf|)
    {
      hide SoundAt, Grown, GrewTo, AllSound, Kept, MapOnDisk, Content, Seen, TableOf, HasContent;
      var no := file.no;
      AllPresent(a, no);
      ghost var i, m := a.inodes[no], LastBlocks(a.inodes[no].iSize, |buf|);
      ghost var d1, s' := disk.sectors, inodes[no].iSectors;
      RoomReady(a.disk, d1, a.bits, bits, sb.dataStartLBA, i, s', m, taken);
      assert Beyond(a.disk, d1, if m > DIRECT then {s'[DIRECT]} else {});
      WriteData(file, buf, all, AllOf(d1, s'), m);
      assert inodes == a.inodes[no := i.(iSectors := s', iSize := i.iSize + |buf|)];
      Finished(a, d1, Now(), no, m, taken, buf);
    }

    /** Saving one inode leaves all files and all other records alone. */
    method SaveInode(no: nat)
      requires Healthy() && no in inodes
      modifies disk
      ensures Healthy() && Saved(sb, old(Now()), Now(), no)
    {
      ghost var a := Now();
      AllPresent(a, no);
      InodeTable.Write(disk, sb.inodeTableLBA, inodes[no]);
      AreasKept(a.disk, disk.sectors, sb, bits);
      AllKept(a.disk, disk.sectors, bits, sb.dataStartLBA, inodes);
    }

    /** Making room, writing and saving the inode (file.c:429-585): everything, or nothing for want of room. */
    method AppendData(file: File, buf: seq<Byte>) returns (end: Ending, ghost taken: seq<nat>)
      requires Healthy() && file.no in inodes && Shaped(inodes[file.no])
      requires inodes[file.no].iSectors[0] != 0 && inodes[file.no].iSize + |buf| < ALL_BLOCKS * BLOCK
      modifies this`bits, this`inodes, disk, file`fdPos
      ensures end == Wanted(old(inodes)[file.no], |buf|, FreeCount(old(bits)))
      ensures end != AssertFails ==> Healthy() && Grown(old(bits), bits, sb.dataStartLBA, taken)
      ensures end == Done ==> |taken| == RoomFor(old(inodes)[file.no].iSize, |buf|)
      ensures end == Done ==> file.fdPos == Wrapped(old(inodes)[file.no].iSize + 0xFFFF_FFFF + |buf|)
      ensures end == Done ==> WrittenThrough(sb, old(Now()), Now(), file.no, buf)
      ensures end == NoBlock ==> file.fdPos == old(file.fdPos) && OutOfRoom(sb, old(Now()), Now(), file.no)
      ensures end == NoBlock ==> SlotsFilled(old(inodes)[file.no], inodes[file.no].iSectors, |buf|, taken)
      ensures end == NoBlock ==> FreeCount(bits) == 0
    {
      hide FileStates.Mounted, AllSound, Extended, Saved, WrittenThrough, FileSystem.RoomReadyFor, SlotsFilled;
      ghost var a := Now();
      var all;
      end, all, taken := TryRoom(file.no, |buf|);
      if end == Done {
        WriteInRoom(file, buf, all, a, taken);
        ghost var b := Now();
        SaveInode(file.no);
        SavedAfter(sb, a, b, Now(), file.no, buf);
      }
    }

    /** How a write ends: refused exactly if the file would get too big, memory is short (`memory` is what
        sys_malloc has to say), or there are fewer free blocks than it needs and an assertion on a slot is
        not met first. */
    ghost function Decided(i: Inode, count: nat, memory: bool, free: nat): Outcome
      requires Shaped(i)
    {
      if i.iSize + count >= ALL_BLOCKS * BLOCK || !memory then Refused
      else if WriteHalts(i, count, free) then Halted
      else if free >= Needed(i, count) then Wrote(count) else Refused
    }

    /** The blocks that a refused write has taken and keeps: all there were, or the first block of the file if it had
        none and memory is short. */
    ghost function TakenInVain(i: Inode, count: nat, memory: bool, free: nat): nat
      requires Shaped(i)
    {
      if i.iSize + count >= ALL_BLOCKS * BLOCK then 0
      else if memory then free
      else if i.iSectors[0] == 0 && free > 0 then 1 else 0
    }

    /** File_Write, for every file a run of writes and releases can leave. `FileStates.WriteSafeIff` says
        when it can halt in an assertion at all. */
    method Write(file: File, buf: seq<Byte>, memory: bool) returns (r: Outcome, ghost taken: seq<nat>)
      requires Healthy() && file.no in inodes && Shaped(inodes[file.no]) && |buf| < 0x1_0000_0000
      modifies this`bits, this`inodes, disk, file`fdPos
      ensures r == Decided(old(inodes)[file.no], |buf|, memory, FreeCount(old(bits)))
      ensures r != Halted ==> Healthy() && Grown(old(bits), bits, sb.dataStartLBA, taken)
      ensures r.Wrote? ==> |taken| == Needed(old(inodes)[file.no], |buf|)
      ensures r.Wrote? ==> WrittenThrough(sb, old(Now()), Now(), file.no, buf)
      ensures r.Wrote? ==> file.fdPos == Wrapped(old(inodes)[file.no].iSize + 0xFFFF_FFFF + |buf|)
      ensures r == Refused ==> Unwritten(sb, old(Now()), Now(), file.no) && file.fdPos == old(file.fdPos)
      ensures r == Refused ==> SlotsFilled(old(inodes)[file.no], inodes[file.no].iSectors, |buf|, taken)
      ensures r == Refused ==> |taken| == TakenInVain(old(inodes)[file.no], |buf|, memory, FreeCount(old(bits)))
    {
      hide FileStates.Mounted, AllSound, Extended, OutOfRoom, WrittenThrough, Present, SlotsFilled, WriteHalts;
      ghost var a, i := Now(), inodes[file.no];
      AllPresent(a, file.no);
      if inodes[file.no].iSize + |buf| >= ALL_BLOCKS * BLOCK {
        GrownNothing(bits, sb.dataStartLBA);
        NothingDone(a, file.no);
        AfterFirst(bits, bits, sb.dataStartLBA, i, i, |buf|, []);
        return Refused, [];
      }
      var ok;
      ok, taken := FirstBlock(file.no);
      ghost var b, first := Now(), taken;
      AfterFirst(a.bits, b.bits, sb.dataStartLBA, i, inodes[file.no], |buf|, first);
      if !ok { NoFirstBlock(i, |buf|); }
      if !ok || !memory {
        JustExtended(sb, a, b, file.no);
        return Refused, taken;
      }
      var end;
      end, taken := AppendData(file, buf);
      if end == AssertFails { return Halted, taken; }
      GrownTwice(a.bits, b.bits, bits, sb.dataStartLBA, first, taken);
      ghost var rest := taken;
      taken := first + rest;
      if end == Done {
        ThenWritten(sb, a, b, Now(), file.no, buf);
        return Wrote(|buf|), taken;
      }
      ThenOutOfRoom(sb, a, b, Now(), file.no);
      ThenFilled(i, b.inodes[file.no], inodes[file.no].iSectors, |buf|, first, rest);
      GrownCounts(a.bits, bits, sb.dataStartLBA, taken);
      r := Refused;
    }

    lemma NothingDone(a: Store, no: nat)
      requires FileStates.Healthy(sb, a) && no in a.inodes
      ensures Unwritten(sb, a, a, no)
    {
      AllPresent(a, no);
      AllKept(a.disk, a.disk, a.bits, sb.dataStartLBA, a.inodes);
    }

    /** The first block of a file counts as one of those the write takes. */
    lemma AfterFirst(was: seq<bool>, now: seq<bool>, base: nat, i: Inode, i': Inode, count: nat, first: seq<nat>)
      requires Shaped(i) && Shaped(i') && Grown(was, now, base, first) && i' == i.(iSectors := i'.iSectors)
      requires if first == [] then i' == i
               else i.iSectors[0] == 0 && i'.iSectors == i.iSectors[0 := i'.iSectors[0]] && first == [i'.iSectors[0]]
      requires first != [] ==> i'.iSectors[0] != 0
      ensures SlotsFilled(i, i'.iSectors, count, first) && Needed(i, count) == Needed(i', count) + |first|
      ensures FreeCount(was) == FreeCount(now) + |first|
      ensures WriteHalts(i, count, FreeCount(was)) <==> WriteHalts(i', count, FreeCount(now))
    {
      GrownCounts(was, now, base, first);
      if first != [] {
        HaltsBehindFirst(i.iSectors, i'.iSectors[0], i.iSize / BLOCK + 1, LastBlocks(i.iSize, count), FreeCount(now));
        assert first[1..] == [];
      }
    }

    lemma NoFirstBlock(i: Inode, count: nat)
      requires Shaped(i) && i.iSectors[0] == 0
      ensures !WriteHalts(i, count, 0) && Needed(i, count) > 0
    {
    }

    lemma ThenFilled(i: Inode, i': Inode, s: seq<U32>, count: nat, first: seq<nat>, rest: seq<nat>)
      requires Shaped(i) && Shaped(i') && i' == i.(iSectors := i'.iSectors) && SlotsFilled(i', s, count, rest)
      requires if first == [] then i' == i
               else i.iSectors[0] == 0 && i'.iSectors == i.iSectors[0 := i'.iSectors[0]] && first == [i'.iSectors[0]]
      requires i'.iSectors[0] != 0
      ensures SlotsFilled(i, s, count, first + rest)
    {
      if first == [] {
        assert first + rest == rest;
      } else {
        assert (first + rest)[1..] == rest;
      }
    }

    // -------------------------------------------------------------- File_Read

    /** file.c:315-351: the addresses of blocks startBlock..endBlock, through the table from block 12 on. */
    method BlocksToRead(no: nat, startBlock: nat, endBlock: nat) returns (all: seq<U32>)
      requires Healthy() && no in inodes && Present(Now(), no) && startBlock <= endBlock < Count(inodes[no])
      ensures |all| == ALL_BLOCKS
      ensures forall b :: startBlock <= b <= endBlock ==> all[b] == AllOf(disk.sectors, inodes[no].iSectors)[b]
    {
      AllPresent(Now(), no);
      ghost var d, s, n := disk.sectors, inodes[no].iSectors, Count(inodes[no]);
      all := seq(ALL_BLOCKS, _ => 0);
      var blockIndex := startBlock;
      while blockIndex <= endBlock && blockIndex < DIRECT
        invariant startBlock <= blockIndex && |all| == ALL_BLOCKS
        invariant forall b :: startBlock <= b < blockIndex && b < DIRECT ==> all[b] == inodes[no].iSectors[b]
        decreases DIRECT - blockIndex
      {
        all := all[blockIndex := inodes[no].iSectors[blockIndex]];
        blockIndex := blockIndex + 1;
      }
      if endBlock >= DIRECT {
        SlotParts(d, s, n, DIRECT);
        var table := LoadBlock(inodes[no].iSectors[DIRECT]);
        all := all[..DIRECT] + GetWords(table);
      }
      forall b: nat | startBlock <= b <= endBlock
        ensures all[b] == AllOf(d, s)[b]
      {
        AllParts(d, s, b);
      }
    }

    /** One turn of the loop of file.c:354-374: at most to the end of a block. */
    method ReadChunk(no: nat, pos: nat, left: nat, secLBA: nat) returns (piece: seq<Byte>)
      requires Healthy() && Present(Now(), no) && 0 < left && pos + left <= inodes[no].iSize
      requires pos / BLOCK < Count(inodes[no]) && secLBA == AllOf(disk.sectors, inodes[no].iSectors)[pos / BLOCK]
      ensures 0 < |piece| <= left && piece == ContentIn(Now(), no)[pos..pos + |piece|]
    {
      hide FileStates.Mounted, AllSound, Content, Seen, HasContent, AllOf;
      var secOff := pos % BLOCK;
      var chunk := if left < BLOCK - secOff then left else BLOCK - secOff;
      ContentSlice(disk.sectors, inodes[no], pos, chunk);
      BlockInArea(Now(), no, pos / BLOCK);
      var ioBuf := LoadBlock(secLBA);
      piece := ioBuf[secOff..secOff + chunk];
    }

    method ReadData(file: File, all: seq<U32>, need: nat) returns (buf: seq<Byte>)
      requires Healthy() && Present(Now(), file.no) && |all| == ALL_BLOCKS
      requires file.fdPos + need <= inodes[file.no].iSize
      requires forall b :: file.fdPos / BLOCK <= b <= (file.fdPos + need) / BLOCK ==>
                 all[b] == AllOf(disk.sectors, inodes[file.no].iSectors)[b]
      modifies file`fdPos
      ensures buf == ContentIn(Now(), file.no)[old(file.fdPos)..old(file.fdPos) + need]
      ensures file.fdPos == old(file.fdPos) + need
    {
      hide FileStates.Mounted, AllSound, Content, Seen, HasContent, AllOf;
      ghost var no, pos := file.no, file.fdPos;
      ghost var content := ContentIn(Now(), no);
      buf := [];
      while |buf| < need
        invariant |buf| <= need && file.fdPos == pos + |buf|
        invariant buf == content[pos..pos + |buf|]
      {
        BlockCounted(disk.sectors, inodes[no], file.fdPos, need - |buf|);
        assert pos / BLOCK <= file.fdPos / BLOCK <= (pos + need) / BLOCK;
        var piece := ReadChunk(file.no, file.fdPos, need - |buf|, all[file.fdPos / BLOCK]);
        Joined(content, pos, |buf|, |piece|);
        buf := buf + piece;
        file.fdPos := file.fdPos + |piece|;
      }
    }

    lemma BlockInArea(a: Store, no: nat, b: nat)
      requires FileStates.Healthy(sb, a) && Present(a, no) && b < Count(a.inodes[no])
      ensures InArea(a.bits, sb.dataStartLBA, AllOf(a.disk, a.inodes[no].iSectors)[b])
    {
      AllPresent(a, no);
      SoundIsPlaced(a.disk, a.bits, sb.dataStartLBA, a.inodes[no].iSectors, Count(a.inodes[no]));
    }

    /** File_Read: exactly the bytes of the content from the position on, at most to its end; nothing to
        read and a lack of memory are both -1. `ReadNeedIsRightIff` says why the two conditions on the
        position are the weakest possible. */
    method Read(file: File, count: U32, memory: bool) returns (r: int, buf: seq<Byte>)
      requires Healthy() && Present(Now(), file.no)
      requires file.fdPos <= inodes[file.no].iSize && file.fdPos + count < 0x1_0000_0000
      modifies file`fdPos
      ensures var pos, content := old(file.fdPos), ContentIn(Now(), file.no);
              var need := if pos + count > |content| then |content| - pos else count;
              if need == 0 || !memory then r == -1 && buf == [] && file.fdPos == pos
              else r == need && buf == content[pos..pos + need] && file.fdPos == pos + need
    {
      hide FileStates.Mounted, AllSound, AllOf, Content, Seen;
      var need := ReadNeed(file.fdPos, count, inodes[file.no].iSize);
      ReadNeedIsRightIff(file.fdPos, count, inodes[file.no].iSize);
      if need == 0 || !memory { return -1, []; }
      BlockCounted(disk.sectors, inodes[file.no], file.fdPos, need);
      var all := BlocksToRead(file.no, file.fdPos / BLOCK, (file.fdPos + need) / BLOCK);
      buf := ReadData(file, all, need);
      r := need;
    }

    /** File_Write and then File_Read from position `pos` on: the bytes of the old content followed by the
        buffer, and so the buffer itself from the old end on. */
    method WriteThenRead(file: File, buf: seq<Byte>, pos: U32, count: U32) returns (r: Outcome, data: seq<Byte>)
      requires Healthy() && Present(Now(), file.no) && |buf| < 0x1_0000_0000
      requires pos <= inodes[file.no].iSize + |buf| && pos + count < 0x1_0000_0000
      modifies this`bits, this`inodes, disk, file`fdPos
      ensures r == Decided(old(inodes)[file.no], |buf|, true, FreeCount(old(bits)))
      ensures r.Wrote? ==>
                var all := old(ContentIn(Now(), file.no)) + buf;
                data == all[pos..if pos + count > |all| then |all| else pos + count]
      ensures r.Wrote? && pos == old(inodes)[file.no].iSize && count == |buf| ==> data == buf
    {
      hide FileStates.Mounted, AllSound, Content, Seen, OnlyRecord, OthersKeep, WriteHalts, SlotsFilled, Grown;
      ghost var was := ContentIn(Now(), file.no);
      ghost var taken;
      data := [];
      r, taken := Write(file, buf, true);
      if r.Wrote? {
        file.fdPos := pos;
        var n;
        n, data := Read(file, count, true);
        assert (was + buf)[|was|..] == buf;
      }
    }

    // -------------------------------------------------------------- Inode_Release

    /** Give one block back (inode.c:124-127 and 133-138). */
    method FreeBlock(lba: nat, ghost before: seq<bool>, ghost freed: set<nat>)
      requires Mounted() && lba != sb.dataStartLBA  // asserted at inode.c:125, 135
      requires InArea(bits, sb.dataStartLBA, lba) && Shrunk(before, bits, sb.dataStartLBA, freed)
      modifies this`bits, disk
      ensures Mounted() && |bits| == old(|bits|) && Shrunk(before, bits, sb.dataStartLBA, freed + {lba})
      ensures Same(old(disk.sectors))
    {
      var i := lba - sb.dataStartLBA;
      ghost var was := bits;
      bits := bits[i := false];
      BitmapSync(i, was, false);
      ShrunkOneMore(before, was, sb.dataStartLBA, freed, lba);
    }

    /** BitmapSet fails its assertion for this address, or the one on block 0 before it does (inode.c:125, 135). */
    predicate FailsAssert(lba: nat) {
      lba <= sb.dataStartLBA || lba >= sb.dataStartLBA + BITS_PER_SECTOR * sb.blockBitmapSects
    }

    /** BitmapSet has its bit inside the map, and that is not the bit of block 0, exactly if neither assertion fails. */
    lemma FailsAssertIff(lba: nat)
      ensures FailsAssert(lba) <==>
                lba <= sb.dataStartLBA || (lba - sb.dataStartLBA) / 8 >= 512 * sb.blockBitmapSects
    {
    }

    /** BitmapSet clears a bit behind those of the blocks. */
    predicate HitsPadding(lba: nat, blocks: nat) {
      !FailsAssert(lba) && lba >= sb.dataStartLBA + blocks
    }

    /** How giving back these addresses ends, on a map of that many blocks. */
    ghost predicate EndsWith(end: ReleaseEnd, listed: set<nat>, blocks: nat) {
      && (end == Panicked <==> exists x :: x in listed && FailsAssert(x))
      && (end == MapSpoilt <==> end != Panicked && exists x :: x in listed && HitsPadding(x, blocks))
    }

    /** One address of a release; once a bit behind the blocks is cleared, nothing more is recorded. */
    method FreeOne(lba: nat, was: ReleaseEnd, ghost before: seq<bool>, ghost freed: set<nat>) returns (end: ReleaseEnd)
      requires Mounted() && Shrunk(before, bits, sb.dataStartLBA, freed) && was != Panicked
      modifies this`bits, disk
      ensures |bits| == old(|bits|) && Mounted() && Same(old(disk.sectors))
      ensures end == if FailsAssert(lba) then Panicked else if HitsPadding(lba, |bits|) then MapSpoilt else was
      ensures Shrunk(before, bits, sb.dataStartLBA, if end == BlocksFreed then freed + {lba} else freed)
    {
      if FailsAssert(lba) { return Panicked; }
      if HitsPadding(lba, |bits|) { return MapSpoilt; }
      if was == BlocksFreed { FreeBlock(lba, before, freed); }
      end := was;
    }

    lemma OneMoreEnds(was: ReleaseEnd, end: ReleaseEnd, listed: set<nat>, lba: nat, blocks: nat)
      requires EndsWith(was, listed, blocks) && was != Panicked
      requires end == if FailsAssert(lba) then Panicked else if HitsPadding(lba, blocks) then MapSpoilt else was
      ensures EndsWith(end, listed + {lba}, blocks)
    {
      hide FailsAssert, HitsPadding;
      assert lba in listed + {lba} && forall x :: x in listed ==> x in listed + {lba};
    }

    lemma PanickedForAll(part: set<nat>, all: set<nat>, blocks: nat)
      requires EndsWith(Panicked, part, blocks) && part <= all
      ensures EndsWith(Panicked, all, blocks)
    {
    }

    /** The loop of inode.c:129-141, over all 140 entries, from where the release of the table has left off. */
    method FreeListed(all: seq<U32>, was: ReleaseEnd, ghost before: seq<bool>, ghost freed: set<nat>)
        returns (end: ReleaseEnd)
      requires Mounted() && |all| == ALL_BLOCKS && was != Panicked && EndsWith(was, freed, |bits|)
      requires Shrunk(before, bits, sb.dataStartLBA, if was == BlocksFreed then freed else {})
      modifies this`bits, disk
      ensures |bits| == old(|bits|) && Mounted() && Same(old(disk.sectors))
      ensures EndsWith(end, freed + NonZero(all), |bits|)
      ensures end == BlocksFreed ==> Shrunk(before, bits, sb.dataStartLBA, freed + NonZero(all))
    {
      hide FileStates.Mounted, Shrunk, FailsAssert, HitsPadding, EndsWith;
      ghost var listed, done := freed, if was == BlocksFreed then freed else {};
      end := was;
      NonZeroStarts(all);
      var b := 0;
      while b < ALL_BLOCKS
        invariant 0 <= b <= ALL_BLOCKS && end != Panicked && Mounted() && |bits| == old(|bits|)
        invariant Shrunk(before, bits, sb.dataStartLBA, done) && Same(old(disk.sectors))
        invariant end == BlocksFreed ==> done == listed
        invariant EndsWith(end, listed, |bits|) && listed == freed + NonZero(all[..b])
      {
        NonZeroNext(all, b);
        if all[b] > 0 {
          ghost var sofar := end;
          end := FreeOne(all[b], end, before, done);
          OneMoreEnds(sofar, end, listed, all[b], |bits|);
          listed := listed + {all[b] as nat};
          if end == BlocksFreed { done := listed; }
          if end == Panicked {
            assert listed == freed + NonZero(all[..b + 1]);
            PanickedForAll(listed, freed + NonZero(all), |bits|);
            return;
          }
        }
        b := b + 1;
      }
      assert all[..ALL_BLOCKS] == all;
    }

    /** The addresses a release goes through (inode.c:113-122): direct slots, and what the table's sector holds. */
    method ReadAddresses(no: nat) returns (all: seq<U32>)
      requires Mounted() && no in inodes && Shaped(inodes[no])
      requires inodes[no].iSectors[DIRECT] != 0 ==> InArea(bits, sb.dataStartLBA, inodes[no].iSectors[DIRECT])
      ensures all == AllOf(disk.sectors, inodes[no].iSectors)
    {
      all := inodes[no].iSectors[..DIRECT] + seq(INDIRECT, _ => 0);
      if inodes[no].iSectors[DIRECT] != 0 {
        var table := LoadBlock(inodes[no].iSectors[DIRECT]);
        all := inodes[no].iSectors[..DIRECT] + GetWords(table);
      }
    }

    /** The block map part of Inode_Release (inode.c:113-141): the table, then the listed blocks. */
    method FreeAll(no: nat) returns (end: ReleaseEnd)
      requires Mounted() && no in inodes && Shaped(inodes[no])
      requires inodes[no].iSectors[DIRECT] != 0 ==> InArea(bits, sb.dataStartLBA, inodes[no].iSectors[DIRECT])
      modifies this`bits, disk
      ensures |bits| == old(|bits|) && Mounted() && Same(old(disk.sectors))
      ensures EndsWith(end, Listed(old(disk.sectors), inodes[no].iSectors), |bits|)
      ensures end == BlocksFreed ==>
                Shrunk(old(bits), bits, sb.dataStartLBA, Listed(old(disk.sectors), inodes[no].iSectors))
    {
      hide FileStates.Mounted, Shrunk, Listed, AllOf, TableOf, FailsAssert, HitsPadding;
      ghost var d, was, s, base := disk.sectors, bits, inodes[no].iSectors, sb.dataStartLBA;
      ListedInAll(d, s);
      ghost var freed: set<nat> := {};
      ShrunkNothing(bits, base);
      end := BlocksFreed;
      var all := ReadAddresses(no);
      if inodes[no].iSectors[DIRECT] != 0 {
        end := FreeOne(inodes[no].iSectors[DIRECT], end, was, freed);
        OneMoreEnds(BlocksFreed, end, freed, s[DIRECT], |bits|);
        freed := freed + {inodes[no].iSectors[DIRECT] as nat};
        if end == Panicked {
          assert s[DIRECT] as nat in Listed(d, s);
          PanickedForAll(freed, Listed(d, s), |bits|);
          return;
        }
      }
      end := FreeListed(all, end, was, freed);
      assert freed + NonZero(all) == Listed(d, s);
    }

    lemma NothingElse(a: Store, b: Store)
      requires Beyond(a.disk, b.disk, {})
      ensures Elsewhere(sb, a, b, {})
    {
    }

    /** The end of Inode_Release: the record on the disk and the inode in memory go. */
    method ZeroRecord(no: nat, ghost a: Store)
      requires FileStates.Mounted(sb, a.disk, a.bits) && Mounted() && no in inodes && no < INODES
      requires Beyond(a.disk, disk.sectors, {})
      modifies this`inodes, disk
      ensures Mounted() && inodes == old(inodes) - {no} && RecordZeroed(sb, a, Now(), no)
      ensures Elsewhere(sb, a, Now(), {}) && DataSame(a.disk, disk.sectors, sb.dataStartLBA, {})
    {
      ghost var d := disk.sectors;
      InodeTable.Delete(disk, sb.inodeTableLBA, no);
      AreasKept(d, disk.sectors, sb, bits);
      BytesSame(a.disk, d, sb.inodeTableLBA, TABLE_SECTS);
      inodes := inodes - {no};
    }

    /** All listed blocks have been given back. */
    lemma ReleaseOutcome(a: Store, b: Store, no: nat)
      requires FileStates.Healthy(sb, a) && FileStates.Mounted(sb, b.disk, b.bits) && no in a.inodes
      requires Shaped(a.inodes[no]) && b.inodes - {no} == a.inodes - {no}
      requires Shrunk(a.bits, b.bits, sb.dataStartLBA, Listed(a.disk, a.inodes[no].iSectors))
      requires DataSame(a.disk, b.disk, sb.dataStartLBA, {})
      ensures Present(a, no)
      ensures Released(sb, a, b, no) <==>
              StrayIsFree(a.disk, a.bits, sb.dataStartLBA, a.inodes[no].iSectors, Count(a.inodes[no]))
      ensures Released(sb, a, b, no) ==> FileStates.Healthy(sb, Store(b.disk, b.bits, a.inodes - {no}))
    {
      hide AllSound, MapOnDisk, Shrunk, HasContent, SoundAt, StrayIsFree;
      AllPresent(a, no);
      ghost var s, n := a.inodes[no].iSectors, Count(a.inodes[no]);
      ReleaseIsExactIff(a.disk, a.bits, b.bits, sb.dataStartLBA, s, n);
      if StrayIsFree(a.disk, a.bits, sb.dataStartLBA, s, n) { ReleasedIf(sb, a, b, no); }
    }

    /** Inode_Release, with the Inode_Close of a file nobody else has open. The kernel is stopped exactly if the bit
        of block 0, the root directory, is to be given back (inode.c:125 and 135) or an address lies outside the map;
        a bit between the last block and the end of the map may be cleared, and nothing is said of a map after that.
        Otherwise exactly the blocks of the file are free afterwards unless the table is one that a failed
        write has taken and left unwritten, and its sector holds addresses in use
        (`FileContent.ReleaseIsExactIff`). Without memory for the buffer the record and the inode in memory stay. */
    method Release(no: nat, memory: bool) returns (end: ReleaseEnd)
      requires Healthy() && no in inodes && Shaped(inodes[no])
      modifies this`bits, this`inodes, disk
      ensures |bits| == old(|bits|) && EndsWith(end, Listed(old(disk.sectors), old(inodes)[no].iSectors), |bits|)
      ensures Present(old(Now()), no) && (end == BlocksFreed ==> Mounted())
      ensures end == BlocksFreed ==>
                && Shrunk(old(bits), bits, sb.dataStartLBA, Listed(old(disk.sectors), old(inodes)[no].iSectors))
                && (Released(sb, old(Now()), Now(), no) <==>
                    StrayIsFree(old(disk.sectors), old(bits), sb.dataStartLBA, old(inodes)[no].iSectors,
                                Count(old(inodes)[no])))
                && (Released(sb, old(Now()), Now(), no) ==>
                    FileStates.Healthy(sb, Store(disk.sectors, bits, old(inodes) - {no})))
      ensures Elsewhere(sb, old(Now()), Now(), {})
      ensures end == BlocksFreed && memory ==> inodes == old(inodes) - {no} && RecordZeroed(sb, old(Now()), Now(), no)
      ensures end == BlocksFreed && !memory ==> inodes == old(inodes) && SameTable(sb, old(Now()), Now())
    {
      hide AllSound, MapOnDisk, Shrunk, HasContent, SoundAt, EndsWith, Elsewhere, RecordZeroed, Released, StrayIsFree;
      ghost var a := Now();
      AllPresent(a, no);
      if inodes[no].iSectors[DIRECT] != 0 { TableInArea(a, no); }
      end := FreeAll(no);
      NothingElse(a, Now());
      if end != BlocksFreed { return; }
      if memory { ZeroRecord(no, a); }
      ReleaseOutcome(a, Now(), no);
    }

    lemma TableInArea(a: Store, no: nat)
      requires FileStates.Healthy(sb, a) && no in a.inodes && Shaped(a.inodes[no]) && a.inodes[no].iSectors[DIRECT] != 0
      ensures InArea(a.bits, sb.dataStartLBA, a.inodes[no].iSectors[DIRECT])
    {
      AllPresent(a, no);
      SlotParts(a.disk, a.inodes[no].iSectors, Count(a.inodes[no]), DIRECT);
    }
  }

  /** The addresses of a list. */
  function NonZero(all: seq<U32>): set<nat> {
    set x: nat | x in all && x != 0
  }

  lemma NonZeroStarts(all: seq<U32>)
    ensures NonZero(all[..0]) == {}
  {
  }

  lemma NonZeroNext(all: seq<U32>, b: nat)
    requires b < |all|
    ensures NonZero(all[..b + 1]) == NonZero(all[..b]) + if all[b] > 0 then {all[b] as nat} else {}
    ensures NonZero(all[..b + 1]) <= NonZero(all)
  {
    assert all[..b + 1] == all[..b] + [all[b]];
    forall x: nat | x in all[..b + 1]
      ensures x in all
    {
      var i :| 0 <= i < b + 1 && all[..b + 1][i] == x;
      assert all[i] == x;
    }
  }

  lemma ListedInAll(d: map<nat, Sector>, s: seq<U32>)
    requires |s| == SLOTS
    ensures forall x: nat :: x in Listed(d, s) <==> x != 0 && (x == s[DIRECT] || x in AllOf(d, s))
  {
    forall x: nat
      ensures x in Listed(d, s) <==> x != 0 && (x == s[DIRECT] || x in AllOf(d, s))
    {
      if x in s {
        var i :| 0 <= i < SLOTS && s[i] == x;
        if i < DIRECT { assert AllOf(d, s)[i] == x; }
      }
      if x in TableOf(d, s) {
        var k :| 0 <= k < INDIRECT && TableOf(d, s)[k] == x;
        assert AllOf(d, s)[DIRECT + k] == x;
      }
    }
  }
}
