/** The places where fs/file.c and fs/inode.c depart from what `FileStore` models, as the text has them:
    what goes wrong, and exactly when it does not. */
module FileAsWritten {
  import opened Words
  import opened DiskModel
  import opened InodeTable
  import opened FileBlocks
  import opened FileContent

  // ---------------------------------------------------------------- the size limit

  datatype Verdict = TooBig | Panic | GoOn

  /** The guard and the assertion of file.c:388 and 423 for a limit of `limit` sectors. */
  function Guard(limit: nat, size: nat, count: nat): Verdict {
    if size + count > limit * BLOCK then TooBig
    else if (size + count) / BLOCK + 1 > limit then Panic
    else GoOn
  }

  /** What is meant: refuse what does not fit. */
  function Fits(limit: nat, size: nat, count: nat): Verdict {
    if size + count >= limit * BLOCK then TooBig else GoOn
  }

  /** Whatever the limit, guard and assertion disagree on one size only: the full one. */
  lemma GuardDisagreesIff(limit: nat, size: nat, count: nat)
    ensures Guard(limit, size, count) == Panic <==> size + count == limit * BLOCK
    ensures Guard(limit, size, count) == Fits(limit, size, count) <==> size + count != limit * BLOCK
  {
    if size + count < limit * BLOCK { assert (size + count) / BLOCK < limit; }
  }

  /** With 13 sectors where 140 are meant, the answer is right outside [13 * 512, 140 * 512). */
  lemma LimitIsRightIff(size: nat, count: nat)
    ensures Guard(SLOTS, size, count) == Fits(ALL_BLOCKS, size, count)
            <==> size + count < SLOTS * BLOCK || size + count >= ALL_BLOCKS * BLOCK
  {
  }

  /** A first write of 6657 bytes is refused though it fits into 14 of the 140 blocks; one of 6656 bytes
      passes the guard and fails the assertion. */
  lemma LimitExample()
    ensures Guard(SLOTS, 0, 6657) == TooBig && Guard(SLOTS, 0, 6656) == Panic
    ensures Fits(ALL_BLOCKS, 0, 6657) == GoOn && Fits(ALL_BLOCKS, 0, 6656) == GoOn
  {
  }

  /** The guard on a sum of 32 bits (file.c:388, 422): the count comes unchecked from the system call. */
  function GuardIn32Bits(limit: nat, size: nat, count: nat): Verdict {
    var sum := (size + count) % 0x1_0000_0000;
    if sum > limit * BLOCK then TooBig
    else if sum / BLOCK + 1 > limit then Panic
    else GoOn
  }

  /** For a file within the limit it answers as it would on the true sum exactly if that fits into 32 bits. */
  lemma WrappedGuardIsRightIff(limit: nat, size: nat, count: U32)
    requires size <= limit * BLOCK < 0x1_0000_0000
    ensures GuardIn32Bits(limit, size, count) == Guard(limit, size, count) <==> size + count < 0x1_0000_0000
  {
    var sum := size + count;
    if sum >= 0x1_0000_0000 {
      assert sum % 0x1_0000_0000 == sum - 0x1_0000_0000 < size;
      assert Guard(limit, size, count) == TooBig;
    }
  }

  /** 4294967295 bytes onto a file of 100 pass, for the sum is 99; no block is made ready, while the loop is to go
      on to block number 8388608 of a list of 140. */
  lemma WrappedGuardExample()
    ensures GuardIn32Bits(ALL_BLOCKS, 100, 0xFFFF_FFFF) == GoOn && Fits(ALL_BLOCKS, 100, 0xFFFF_FFFF) == TooBig
    ensures (100 + 0xFFFF_FFFF) % 0x1_0000_0000 / BLOCK == 100 / BLOCK
    ensures (100 + 0xFFFF_FFFF) / BLOCK == 8388608 >= ALL_BLOCKS
  {
  }

  // ---------------------------------------------------------------- bytes left

  datatype Progress = Progress(written: nat, left: nat, size: nat)

  /** One turn of the loop of file.c:555-582 with the text's `bytesLeft -= bytesLeft`. */
  function Turn(p: Progress): Progress {
    var secLeft := BLOCK - p.size % BLOCK;
    var chunk := if p.left > secLeft then secLeft else p.left;
    Progress(p.written + chunk, 0, p.size + chunk)
  }

  /** The loop after k turns. */
  function After(size: nat, count: nat, k: nat): Progress {
    if k == 0 then Progress(0, count, size) else Turn(After(size, count, k - 1))
  }

  lemma {:induction false} StuckAfterFirst(size: nat, count: nat, k: nat)
    requires k > 0
    ensures After(size, count, k).left == 0
    ensures After(size, count, k).written == if count > BLOCK - size % BLOCK then BLOCK - size % BLOCK else count
  {
    if k > 1 { StuckAfterFirst(size, count, k - 1); }
  }

  /** The loop comes to an end exactly if the data fits into the sector the content ends in. */
  lemma LoopEndsIff(size: nat, count: nat)
    ensures (exists k: nat :: After(size, count, k).written >= count) <==> count <= BLOCK - size % BLOCK
  {
    StuckAfterFirst(size, count, 1);
    if count <= BLOCK - size % BLOCK {
      assert After(size, count, 1).written >= count;
    } else {
      forall k: nat
        ensures After(size, count, k).written < count
      {
        if k > 0 { StuckAfterFirst(size, count, k); }
      }
    }
  }

  /** 513 bytes into an empty file: 512 are written, and the loop turns for ever. */
  lemma LoopExample(k: nat)
    requires k > 0
    ensures After(0, 513, k).written == 512 && After(0, 513, k).left == 0
  {
    StuckAfterFirst(0, 513, k);
  }

  // ---------------------------------------------------------------- the indirect table

  /** The sector the list of addresses goes to: the address of a new table is never recorded
      (file.c:489, 517), that of one in use is (file.c:521, 544). */
  function ListTarget(s: seq<U32>, n: nat): nat
    requires |s| == SLOTS
  {
    if n <= DIRECT then 0 else s[DIRECT]
  }

  function ListWritten(d: map<nat, Sector>, s: seq<U32>, n: nat, all: seq<U32>): map<nat, Sector>
    requires |s| == SLOTS && |all| == ALL_BLOCKS
  {
    d[ListTarget(s, n) := PutWords(all[DIRECT..])]
  }

  ghost predicate TableIsRight(d: map<nat, Sector>, s: seq<U32>, n: nat, all: seq<U32>)
    requires |s| == SLOTS && |all| == ALL_BLOCKS
  {
    TableOf(ListWritten(d, s, n, all), s) == all[DIRECT..]
  }

  /** A file of n blocks grows behind its direct blocks, s being its slots afterwards and `all` the list of
      its addresses. Whatever the sectors held before, its table is right exactly if it was in use already:
      a write that takes a new table loses it. */
  lemma TableIsRightIff(s: seq<U32>, n: nat, all: seq<U32>)
    requires |s| == SLOTS && |all| == ALL_BLOCKS && s[DIRECT] != 0 && all[DIRECT] != 0
    ensures (forall d: map<nat, Sector> :: s[DIRECT] in d ==> TableIsRight(d, s, n, all)) <==> n > DIRECT
  {
    hide TableIsRight;
    if n <= DIRECT {
      var d: map<nat, Sector> := map[s[DIRECT] := Zeros(BLOCK)];
      TableLost(d, s, n, all);
      assert !TableIsRight(d, s, n, all);
    } else {
      forall d: map<nat, Sector>
        ensures TableIsRight(d, s, n, all)
      {
        TableKeptInUse(d, s, n, all);
      }
    }
  }

  lemma TableKeptInUse(d: map<nat, Sector>, s: seq<U32>, n: nat, all: seq<U32>)
    requires |s| == SLOTS && |all| == ALL_BLOCKS && s[DIRECT] != 0 && n > DIRECT
    ensures TableIsRight(d, s, n, all)
  {
    GetAfterPut(all[DIRECT..]);
    hide PutWords, GetWords;
  }

  /** In particular over a sector of zeros: block 12 reads as block 0, and sector 0 of the disk, where the
      boot program is, holds the list. */
  lemma TableLost(d: map<nat, Sector>, s: seq<U32>, n: nat, all: seq<U32>)
    requires |s| == SLOTS && |all| == ALL_BLOCKS && s[DIRECT] != 0 && all[DIRECT] != 0 && n <= DIRECT
    requires s[DIRECT] in d && d[s[DIRECT]] == Zeros(BLOCK)
    ensures var e := ListWritten(d, s, n, all);
            AllOf(e, s)[DIRECT] == 0 && e[0] == PutWords(all[DIRECT..]) && !TableIsRight(d, s, n, all)
  {
    ZeroWord();
    hide PutWords, GetWords;
    var e := ListWritten(d, s, n, all);
    AllParts(e, s, DIRECT);
    assert TableOf(e, s) == GetWords(Zeros(BLOCK)) && all[DIRECT..][0] == all[DIRECT];
  }

  lemma ZeroWord()
    ensures GetWords(Zeros(BLOCK))[0] == 0
  {
  }

  // ---------------------------------------------------------------- the list buffer

  /** The words a new table gets for a file grown to m blocks: sys_malloc does not clear the list (file.c:412), so
      behind the last block stand the words `stale` that the buffer held before. */
  function NewTable(all: seq<U32>, m: nat, stale: seq<U32>): (r: seq<U32>)
    requires |all| == ALL_BLOCKS && DIRECT < m <= ALL_BLOCKS && |stale| == INDIRECT
    ensures |r| == INDIRECT
  {
    all[DIRECT..m] + stale[m - DIRECT..]
  }

  predicate NewTableIsRight(all: seq<U32>, m: nat, stale: seq<U32>)
    requires |all| == ALL_BLOCKS && DIRECT < m <= ALL_BLOCKS && |stale| == INDIRECT
  {
    NewTable(all, m, stale) == all[DIRECT..]
  }

  /** `all` lists m blocks and nothing behind them. With given words in the buffer the new table is right exactly if
      those behind the last block are 0. */
  lemma NewTableIsRightWith(all: seq<U32>, m: nat, stale: seq<U32>)
    requires |all| == ALL_BLOCKS && DIRECT < m <= ALL_BLOCKS && |stale| == INDIRECT
    requires forall b :: m <= b < ALL_BLOCKS ==> all[b] == 0
    ensures NewTableIsRight(all, m, stale) <==> forall k :: m - DIRECT <= k < INDIRECT ==> stale[k] == 0
  {
    if NewTableIsRight(all, m, stale) {
      forall k | m - DIRECT <= k < INDIRECT
        ensures stale[k] == 0
      {
        assert NewTable(all, m, stale)[k] == all[DIRECT..][k];
      }
    }
  }

  /** Whatever the buffer held, it is right exactly if all entries of the table are in use. */
  lemma NewTableIsRightIff(all: seq<U32>, m: nat)
    requires |all| == ALL_BLOCKS && DIRECT < m <= ALL_BLOCKS
    requires forall b :: m <= b < ALL_BLOCKS ==> all[b] == 0
    ensures (forall stale: seq<U32> :: |stale| == INDIRECT ==> NewTableIsRight(all, m, stale)) <==> m == ALL_BLOCKS
  {
    if m < ALL_BLOCKS {
      var stale := seq<U32>(INDIRECT, _ => 1);
      NewTableIsRightWith(all, m, stale);
      assert stale[INDIRECT - 1] == 1;
      assert !NewTableIsRight(all, m, stale);
    } else {
      forall stale: seq<U32> | |stale| == INDIRECT
        ensures NewTableIsRight(all, m, stale)
      {
        NewTableIsRightWith(all, m, stale);
      }
    }
  }

  /** A file of 13 blocks with its table in sector 113, and the address 200 of another file's block left over in the
      buffer: the file is not sound, and a release that goes through all 140 entries gives back block 200 too. */
  lemma StaleWordExample(d: map<nat, Sector>, bits: seq<bool>, s: seq<U32>, all: seq<U32>, stale: seq<U32>)
    requires |s| == SLOTS && (forall i :: 0 <= i < SLOTS ==> s[i] == 101 + i) && |all| == ALL_BLOCKS
    requires all[DIRECT] == 114
    requires |stale| == INDIRECT && stale[1] == 200 && 113 in d && d[113] == PutWords(NewTable(all, 13, stale))
    ensures !SoundAt(d, bits, 1, s, 13) && 200 in Listed(d, s) && 200 !in Owned(d, s, 13)
  {
    hide PutWords, GetWords, SoundAt;
    GetAfterPut(NewTable(all, 13, stale));
    assert TableOf(d, s) == NewTable(all, 13, stale);
    assert TableOf(d, s)[0] == 114 && TableOf(d, s)[1] == 200;
    assert TableOf(d, s)[1] as nat in Listed(d, s);
    assert Slots(d, s, 13) == s + [114];
    hide TableOf, Slots;
    if SoundAt(d, bits, 1, s, 13) { BlankBehind(d, bits, 1, s, 13, 1); }
  }

  lemma BlankBehind(d: map<nat, Sector>, bits: seq<bool>, base: nat, s: seq<U32>, n: nat, k: nat)
    requires SoundAt(d, bits, base, s, n) && DIRECT < n && n - DIRECT <= k < INDIRECT
    ensures |s| == SLOTS && TableOf(d, s)[k] == 0
  {
  }

  // ---------------------------------------------------------------- the offset of a read

  predicate SameBytes(sector: Sector, a: nat, b: nat, n: nat)
    requires a + n <= SECTOR && b + n <= SECTOR
  {
    sector[a..a + n] == sector[b..b + n]
  }

  /** Copying from secLeft instead of secOff stays inside the buffer and gives the right bytes, whatever
      the sector holds, exactly in the middle of a sector. */
  lemma ReadOffsetRightIff(secOff: nat, chunk: nat)
    requires secOff < BLOCK && 0 < chunk <= BLOCK - secOff
    ensures var secLeft := BLOCK - secOff;
            (secLeft + chunk <= BLOCK && forall sector: Sector :: SameBytes(sector, secLeft, secOff, chunk))
            <==> secOff == BLOCK / 2
  {
    var secLeft := BLOCK - secOff;
    if secLeft + chunk <= BLOCK && secOff != BLOCK / 2 {
      var sector: Sector := Zeros(BLOCK)[secOff := 1];
      assert sector[secLeft..secLeft + chunk][0] == 0 && sector[secOff..secOff + chunk][0] == 1;
      assert !SameBytes(sector, secLeft, secOff, chunk);
    }
  }

  /** At offset 100 the copy takes byte 412 for byte 100. */
  lemma ReadOffsetExample(sector: Sector)
    requires sector[100] != sector[412]
    ensures BLOCK - 100 == 412 && !SameBytes(sector, 412, 100, 1)
  {
    assert sector[412..413][0] == sector[412] && sector[100..101][0] == sector[100];
  }

  // ---------------------------------------------------------------- releasing

  /** What the release loops of inode.c:113-141 give back: direct blocks and the table. */
  function FreedAsWritten(s: seq<U32>): set<nat> {
    set x: nat | x in s && x != 0
  }

  /** Everything the file owns is given back exactly if no data is behind the table. */
  lemma ReleaseIsCompleteIff(d: map<nat, Sector>, bits: seq<bool>, base: nat, s: seq<U32>, n: nat)
    requires SoundAt(d, bits, base, s, n)
    ensures FreedAsWritten(s) <= Owned(d, s, n)
    ensures FreedAsWritten(s) == Owned(d, s, n) <==> n <= DIRECT
  {
    var slots := Slots(d, s, n);
    forall x | x in FreedAsWritten(s)
      ensures x in Owned(d, s, n)
    {
      var i :| 0 <= i < SLOTS && s[i] == x;
      SlotParts(d, s, n, i);
    }
    if n > DIRECT {
      SlotHoldsBlock(d, s, n, n - 1);
      assert slots[n] == AllOf(d, s)[n - 1] != 0;
      assert slots[n] as nat in Owned(d, s, n);
      forall i | 0 <= i < SLOTS
        ensures s[i] != slots[n]
      {
        SlotParts(d, s, n, i);
      }
    } else {
      assert slots == s;
    }
  }

  /** Of a file of 13 blocks, slots 101 to 112 and table 113, the block in the table, 114, stays taken. */
  lemma ReleaseExample(d: map<nat, Sector>, bits: seq<bool>, s: seq<U32>)
    requires |s| == SLOTS && (forall i :: 0 <= i < SLOTS ==> s[i] == 101 + i)
    requires 113 in d && GetWords(d[113]) == [114] + seq<U32>(INDIRECT - 1, _ => 0)
    requires |bits| == 115 && forall i :: 0 <= i < 115 ==> bits[i]
    ensures SoundAt(d, bits, 1, s, 13) && 114 in Owned(d, s, 13) && 114 !in FreedAsWritten(s)
  {
    hide GetWords;
    assert TableOf(d, s)[0] == 114 && Slots(d, s, 13) == s + [114];
    assert forall b :: 0 <= b < 13 ==> AllOf(d, s)[b] == if b < 12 then 101 + b else 114;
    assert 114 as nat in Slots(d, s, 13);
  }

  // ---------------------------------------------------------------- saving the inode

  /** File_Write hands Inode_Write a buffer of one sector (file.c:406, 585). The access stays inside it
      exactly if the record lies in one sector. */
  lemma OneSectorBufferIff(base: nat, no: nat)
    requires no < INODES
    ensures SECTOR * Sectors(Locate(base, no)) <= BLOCK <==> RECORD * no % SECTOR <= SECTOR - RECORD
    ensures SECTOR - RECORD == 436
  {
  }

  /** Inode 6 starts at byte 456 of the first sector: two sectors are read into a buffer of one. */
  lemma InodeSixOverruns(base: nat)
    ensures Locate(base, 6) == Position(true, base, 456) && SECTOR * Sectors(Locate(base, 6)) == 2 * BLOCK
  {
  }
}
