/** What appending does to the content of a file, and what it leaves alone in all others. */
module FileContent {
  import opened Words
  import opened DiskModel
  import opened InodeTable
  import opened FileBlocks
  import opened Bitmaps

  /** The first n addresses lead to sectors, all different. */
  ghost predicate Placed(d: map<nat, Sector>, all: seq<U32>, n: nat) {
    Readable(d, all, n) && forall i, j :: 0 <= i < j < n ==> all[i] != all[j]
  }

  lemma SoundIsPlaced(d: map<nat, Sector>, bits: seq<bool>, base: nat, s: seq<U32>, n: nat)
    requires SoundAt(d, bits, base, s, n) && AreaOnDisk(d, bits, base)
    ensures Placed(d, AllOf(d, s), n)
    ensures forall b :: 0 <= b < n ==> Taken(bits, base, AllOf(d, s)[b]) && AllOf(d, s)[b] != s[DIRECT]
  {
    SoundIsReadable(d, bits, base, s, n);
    forall b | 0 <= b < n
      ensures Slots(d, s, n)[SlotOf(b)] == AllOf(d, s)[b] && SlotOf(b) != DIRECT
    {
      SlotHoldsBlock(d, s, n, b);
    }
    assert Slots(d, s, n)[DIRECT] == s[DIRECT];
  }

  /** Bytes stored behind the end of the content become its end. */
  lemma AppendChunk(d: map<nat, Sector>, e: map<nat, Sector>, all: seq<U32>, n: nat, size: nat, sector: Sector,
                    chunk: seq<Byte>)
    requires Placed(d, all, n) && size / BLOCK < n && size % BLOCK + |chunk| <= BLOCK
    requires e == d[all[size / BLOCK] := sector]
    requires sector[size % BLOCK..size % BLOCK + |chunk|] == chunk
    requires size % BLOCK != 0 ==> sector[..size % BLOCK] == d[all[size / BLOCK]][..size % BLOCK]
    ensures Placed(e, all, n)
    ensures Seen(e, all, size + |chunk|) == Seen(d, all, size) + chunk
  {
    var last, off := size / BLOCK, size % BLOCK;
    forall j: nat | j < size + |chunk|
      ensures Seen(e, all, size + |chunk|)[j] == (Seen(d, all, size) + chunk)[j]
    {
      if j >= size {
        assert j / BLOCK == last && j % BLOCK == off + (j - size);
        assert sector[off..off + |chunk|][j - size] == sector[j % BLOCK];
      } else if j / BLOCK == last {
        assert off != 0 && j % BLOCK < off;
        assert sector[..off][j % BLOCK] == d[all[last]][..off][j % BLOCK];
      } else {
        assert j / BLOCK < last;
      }
    }
  }

  /** Content seen through addresses that agree, on disks that agree. */
  lemma SeenAgrees(d: map<nat, Sector>, e: map<nat, Sector>, a: seq<U32>, b: seq<U32>, n: nat, size: nat)
    requires Readable(d, a, n) && Readable(e, b, n) && (size == 0 || (size - 1) / BLOCK < n)
    requires forall i :: 0 <= i < n ==> a[i] == b[i] && d[a[i]] == e[b[i]]
    ensures Seen(d, a, size) == Seen(e, b, size)
  {
  }

  /** Sectors of the data area are the same but for some. */
  ghost predicate DataSame(d: map<nat, Sector>, e: map<nat, Sector>, base: nat, except: set<nat>) {
    forall k {:trigger k in e} :: k in d && k >= base && k !in except ==> k in e && e[k] == d[k]
  }

  function Elements(q: seq<nat>): set<nat> {
    set x | x in q
  }

  function BlocksFrom(a: seq<U32>, n: nat, m: nat): set<nat>
    requires m <= |a|
  {
    set b: nat | n <= b < m :: a[b]
  }

  /** Making room for m blocks leaves the content in place. */
  lemma GrownContent(d: map<nat, Sector>, e: map<nat, Sector>, bits: seq<bool>, bits': seq<bool>, base: nat,
                     i: Inode, s': seq<U32>, m: nat, taken: seq<nat>)
    requires Sound(d, bits, base, i) && Count(i) > 0 && base > 0
    requires AreaOnDisk(d, bits, base) && AreaOnDisk(e, bits', base)
    requires Grown(bits, bits', base, taken) && GrewTo(d, e, i.iSectors, s', Count(i), m, taken)
    requires DataSame(d, e, base, {s'[DIRECT]})
    ensures SoundAt(e, bits', base, s', m) && Placed(e, AllOf(e, s'), m)
    ensures HasContent(d, i) && Seen(e, AllOf(e, s'), i.iSize) == Content(d, i)
  {
    var n := Count(i);
    GrowKeepsSound(d, e, bits, bits', base, i.iSectors, s', n, m, taken);
    GrownBlocks(d, e, i.iSectors, s', n, m, taken);
    SoundIsPlaced(d, bits, base, i.iSectors, n);
    SoundIsPlaced(e, bits', base, s', m);
    SeenAgrees(d, e, AllOf(d, i.iSectors), AllOf(e, s'), n, i.iSize);
  }

  /** The blocks a write is about to fill. */
  lemma RoomReady(d: map<nat, Sector>, e: map<nat, Sector>, bits: seq<bool>, bits': seq<bool>, base: nat,
                  i: Inode, s': seq<U32>, m: nat, taken: seq<nat>)
    requires Sound(d, bits, base, i) && Count(i) > 0 && base > 0 && AreaOnDisk(e, bits', base)
    requires Grown(bits, bits', base, taken) && GrewTo(d, e, i.iSectors, s', Count(i), m, taken)
    ensures Placed(e, AllOf(e, s'), m) && forall b :: 0 <= b < m ==> InArea(bits', base, AllOf(e, s')[b])
  {
    GrowKeepsSound(d, e, bits, bits', base, i.iSectors, s', Count(i), m, taken);
    SoundIsPlaced(e, bits', base, s', m);
  }

  /** Writing data blocks leaves the addresses in place. */
  lemma DataLeavesTable(d: map<nat, Sector>, e: map<nat, Sector>, bits: seq<bool>, base: nat, s: seq<U32>, k: nat,
                        n: nat)
    requires SoundAt(d, bits, base, s, n) && AreaOnDisk(d, bits, base) && k <= n
    requires DataSame(d, e, base, BlocksFrom(AllOf(d, s), k, n))
    ensures SoundAt(e, bits, base, s, n) && Owned(e, s, n) == Owned(d, s, n)
    ensures forall b :: 0 <= b < n ==> AllOf(e, s)[b] == AllOf(d, s)[b]
  {
    if n > DIRECT { TableUntouched(d, e, bits, base, s, k, n); }
    SameUsedTable(d, e, bits, base, s, n);
  }

  lemma TableUntouched(d: map<nat, Sector>, e: map<nat, Sector>, bits: seq<bool>, base: nat, s: seq<U32>, k: nat,
                       n: nat)
    requires SoundAt(d, bits, base, s, n) && AreaOnDisk(d, bits, base) && k <= n && n > DIRECT
    requires DataSame(d, e, base, BlocksFrom(AllOf(d, s), k, n))
    ensures TableOf(e, s) == TableOf(d, s)
  {
    SoundIsPlaced(d, bits, base, s, n);
    SlotParts(d, s, n, DIRECT);
    assert Taken(bits, base, Slots(d, s, n)[DIRECT]);
    assert s[DIRECT] as nat !in BlocksFrom(AllOf(d, s), k, n);
  }

  /** A file with the same table, or with none in use, is the same file. */
  lemma SameUsedTable(d: map<nat, Sector>, e: map<nat, Sector>, bits: seq<bool>, base: nat, s: seq<U32>, n: nat)
    requires SoundAt(d, bits, base, s, n) && (n > DIRECT ==> TableOf(e, s) == TableOf(d, s))
    ensures SoundAt(e, bits, base, s, n) && Owned(e, s, n) == Owned(d, s, n)
    ensures forall b :: 0 <= b < n ==> AllOf(e, s)[b] == AllOf(d, s)[b]
  {
    hide Taken;
    if n > DIRECT {
      hide TableOf;
      assert Slots(e, s, n) == Slots(d, s, n) && AllOf(e, s) == AllOf(d, s);
    } else {
      hide TableOf;
      assert Slots(e, s, n) == s && Slots(d, s, n) == s;
      assert forall b :: 0 <= b < n ==> AllOf(e, s)[b] == s[b] && AllOf(d, s)[b] == s[b];
    }
  }

  /** A failed growth leaves the content in place. */
  lemma ShortContent(d: map<nat, Sector>, e: map<nat, Sector>, bits: seq<bool>, bits': seq<bool>, base: nat,
                     i: Inode, s': seq<U32>, m: nat, taken: seq<nat>)
    requires Sound(d, bits, base, i) && Count(i) > 0 && AreaOnDisk(d, bits, base) && AreaOnDisk(e, bits', base)
    requires FellShort(d, e, bits', base, i.iSectors, s', Count(i), m, taken) && DataSame(d, e, base, {})
    ensures var i' := i.(iSectors := s');
            && Sound(e, bits', base, i')
            && HasContent(d, i) && HasContent(e, i') && Content(e, i') == Content(d, i)
  {
    var n := Count(i);
    AllParts(d, i.iSectors, 0);
    AllParts(e, s', 0);
    SoundIsPlaced(d, bits, base, i.iSectors, n);
    SoundIsPlaced(e, bits', base, s', n);
    SeenAgrees(d, e, AllOf(d, i.iSectors), AllOf(e, s'), n, i.iSize);
  }

  // ---------------------------------------------------------------- all files together

  /** Every inode in memory is sound, and no block belongs to two of them. */
  ghost predicate AllSound(d: map<nat, Sector>, bits: seq<bool>, base: nat, files: map<nat, Inode>) {
    && (forall k {:trigger FileOk(d, bits, base, files, k)} :: k in files ==> FileOk(d, bits, base, files, k))
    && (forall j, k {:trigger Apart(d, files, j, k)} :: j in files && k in files && j != k ==> Apart(d, files, j, k))
  }

  ghost predicate FileOk(d: map<nat, Sector>, bits: seq<bool>, base: nat, files: map<nat, Inode>, k: nat) {
    k in files && k < INODES && files[k].iNo == k && Sound(d, bits, base, files[k])
  }

  ghost predicate Apart(d: map<nat, Sector>, files: map<nat, Inode>, j: nat, k: nat) {
    && j in files && k in files
    && Shaped(files[j]) && files[j].iSize < ALL_BLOCKS * BLOCK
    && Shaped(files[k]) && files[k].iSize < ALL_BLOCKS * BLOCK
    && OwnedBy(d, files[j]) !! OwnedBy(d, files[k])
  }

  /** A file is as it was: addresses and content. */
  ghost predicate Kept(d: map<nat, Sector>, e: map<nat, Sector>, bits: seq<bool>, base: nat, i: Inode) {
    && Sound(d, bits, base, i) && AreaOnDisk(d, bits, base)
    && HasContent(d, i) && HasContent(e, i)
    && OwnedBy(e, i) == OwnedBy(d, i) && Content(e, i) == Content(d, i)
  }

  lemma KeptContent(d: map<nat, Sector>, e: map<nat, Sector>, bits: seq<bool>, base: nat, i: Inode)
    requires Kept(d, e, bits, base, i)
    ensures HasContent(d, i) && HasContent(e, i) && Content(e, i) == Content(d, i)
  {
  }

  lemma FileKept(d: map<nat, Sector>, e: map<nat, Sector>, bits: seq<bool>, bits': seq<bool>, base: nat, i: Inode)
    requires Sound(d, bits, base, i) && AreaOnDisk(d, bits, base) && |bits'| == |bits|
    requires AgreeOn(d, e, OwnedBy(d, i))
    requires forall lba :: lba in OwnedBy(d, i) ==> Taken(bits', base, lba)
    ensures Sound(e, bits', base, i) && Kept(d, e, bits, base, i)
  {
    var s, n := i.iSectors, Count(i);
    FileFrame(d, e, bits, bits', base, s, n);
    SoundIsReadable(d, bits, base, s, n);
    forall b | 0 <= b < n
      ensures AllOf(d, s)[b] in OwnedBy(d, i)
    {
      SlotHoldsBlock(d, s, n, b);
    }
    SeenAgrees(d, e, AllOf(d, s), AllOf(e, s), n, i.iSize);
  }

  /** What a step on file `no` may do to the rest: it may write blocks the file owned or that were free,
      and set bits. Every other file stays as it was, and no block gets two owners. */
  lemma OthersKept(d: map<nat, Sector>, e: map<nat, Sector>, bits: seq<bool>, bits': seq<bool>, base: nat,
                   files: map<nat, Inode>, files': map<nat, Inode>, no: nat, taken: seq<nat>)
    requires AllSound(d, bits, base, files) && AreaOnDisk(d, bits, base) && no in files
    requires FileOk(d, bits, base, files, no)
    requires Grown(bits, bits', base, taken)
    requires files'.Keys == files.Keys && forall k :: k in files && k != no ==> files'[k] == files[k]
    requires files'[no].iNo == no && Sound(e, bits', base, files'[no])
    requires forall x :: x in OwnedBy(e, files'[no]) ==> x in OwnedBy(d, files[no]) || x in taken
    requires DataSame(d, e, base, OwnedBy(d, files[no]) + Elements(taken))
    ensures AllSound(e, bits', base, files')
    ensures forall k {:trigger files[k]} :: k in files && k != no ==> Kept(d, e, bits, base, files[k])
  {
    forall k | k in files && k != no
      ensures FileOk(e, bits', base, files', k) && Kept(d, e, bits, base, files[k])
      ensures Apart(e, files', no, k) && Apart(e, files', k, no)
    {
      assert FileOk(d, bits, base, files, k) && Apart(d, files, no, k);
      OtherKept(d, e, bits, bits', base, files[no], files[k], taken);
    }
    forall j, k | j in files' && k in files' && j != k
      ensures Apart(e, files', j, k)
    {
      if j != no && k != no {
        assert FileOk(e, bits', base, files', j) && FileOk(e, bits', base, files', k);
        assert Kept(d, e, bits, base, files[j]) && Kept(d, e, bits, base, files[k]) && Apart(d, files, j, k);
      }
    }
    assert FileOk(e, bits', base, files', no);
  }

  lemma OtherKept(d: map<nat, Sector>, e: map<nat, Sector>, bits: seq<bool>, bits': seq<bool>, base: nat,
                  mine: Inode, other: Inode, taken: seq<nat>)
    requires Sound(d, bits, base, other) && AreaOnDisk(d, bits, base) && Shaped(mine)
    requires mine.iSize < ALL_BLOCKS * BLOCK && OwnedBy(d, mine) !! OwnedBy(d, other)
    requires Grown(bits, bits', base, taken)
    requires DataSame(d, e, base, OwnedBy(d, mine) + Elements(taken))
    ensures Sound(e, bits', base, other) && Kept(d, e, bits, base, other)
    ensures forall x :: x in OwnedBy(e, other) ==> x !in OwnedBy(d, mine) && x !in taken
  {
    forall x | x in OwnedBy(d, other)
      ensures Taken(bits', base, x) && x !in taken && x in d && x in e && e[x] == d[x]
    {
      OwnedIsTaken(d, bits, base, other.iSectors, Count(other), x);
      StaysTaken(bits, bits', base, taken, x);
    }
    FileKept(d, e, bits, bits', base, other);
  }

  lemma KeptTwice(d: map<nat, Sector>, e: map<nat, Sector>, f: map<nat, Sector>, bits: seq<bool>, bits': seq<bool>,
                  base: nat, i: Inode)
    requires Kept(d, e, bits, base, i) && Kept(e, f, bits', base, i)
    ensures Kept(d, f, bits, base, i)
  {
  }

  /** If the data area has not changed, no file has. */
  lemma AllKept(d: map<nat, Sector>, e: map<nat, Sector>, bits: seq<bool>, base: nat, files: map<nat, Inode>)
    requires AllSound(d, bits, base, files) && AreaOnDisk(d, bits, base) && DataSame(d, e, base, {})
    ensures AllSound(e, bits, base, files)
    ensures forall k {:trigger files[k]} :: k in files ==> Kept(d, e, bits, base, files[k])
  {
    GrownNothing(bits, base);
    forall k | k in files
      ensures FileOk(e, bits, base, files, k) && Kept(d, e, bits, base, files[k])
    {
      assert FileOk(d, bits, base, files, k);
      forall x | x in OwnedBy(d, files[k])
        ensures Taken(bits, base, x) && x in d && x in e && e[x] == d[x]
      {
        OwnedIsTaken(d, bits, base, files[k].iSectors, Count(files[k]), x);
      }
      FileKept(d, e, bits, bits, base, files[k]);
    }
    forall j, k | j in files && k in files && j != k
      ensures Apart(e, files, j, k)
    {
      assert FileOk(e, bits, base, files, j) && FileOk(e, bits, base, files, k) && Apart(d, files, j, k);
      assert Kept(d, e, bits, base, files[j]) && Kept(d, e, bits, base, files[k]);
    }
  }

  // ---------------------------------------------------------------- the three steps of a write

  /** The first block of an empty file. */
  lemma FirstBlockTaken(d: map<nat, Sector>, e: map<nat, Sector>, bits: seq<bool>, bits': seq<bool>, base: nat,
                        i: Inode, lba: U32)
    requires Sound(d, bits, base, i) && i.iSectors[0] == 0 && base > 0
    requires Grown(bits, bits', base, [lba])
    ensures var i' := i.(iSectors := i.iSectors[0 := lba]);
            && Sound(e, bits', base, i') && Count(i') == 1
            && (forall x :: x in OwnedBy(e, i') ==> x in OwnedBy(d, i) || x in [lba as nat])
  {
    var s' := i.iSectors[0 := lba];
    var taken := [lba as nat];
    assert InArea(bits, base, taken[0]);
    assert NoClash(i.iSectors, 0, 1, 1);
    GrewDirectly(d, e, i.iSectors, s', 0, taken);
    GrowKeepsSound(d, e, bits, bits', base, i.iSectors, s', 0, 1, taken);
    GrowOwns(d, e, bits, bits', base, i.iSectors, s', 0, 1, taken);
  }

  lemma FirstBlockOutcome(d: map<nat, Sector>, e: map<nat, Sector>, bits: seq<bool>, bits': seq<bool>, base: nat,
                          files: map<nat, Inode>, no: nat, lba: U32)
    requires AllSound(d, bits, base, files) && FileOk(d, bits, base, files, no) && AreaOnDisk(d, bits, base)
    requires files[no].iSectors[0] == 0 && base > 0
    requires AreaOnDisk(e, bits', base) && Grown(bits, bits', base, [lba]) && DataSame(d, e, base, {})
    ensures var i' := files[no].(iSectors := files[no].iSectors[0 := lba]);
            && AllSound(e, bits', base, files[no := i']) && lba != 0
            && HasContent(d, files[no]) && HasContent(e, i') && Content(e, i') == Content(d, files[no])
    ensures forall k {:trigger files[k]} :: k in files && k != no ==> Kept(d, e, bits, base, files[k])
  {
    var i' := files[no].(iSectors := files[no].iSectors[0 := lba]);
    FirstBlockTaken(d, e, bits, bits', base, files[no], lba);
    SoundIsReadable(e, bits', base, i'.iSectors, 1);
    OthersKept(d, e, bits, bits', base, files, files[no := i'], no, [lba]);
  }

  /** What the steps of a successful write have written belongs to the file afterwards. */
  lemma WrittenIsOwned(d: map<nat, Sector>, d1: map<nat, Sector>, d2: map<nat, Sector>, bits': seq<bool>, base: nat,
                       s': seq<U32>, n: nat, m: nat)
    requires SoundAt(d1, bits', base, s', m) && 1 <= n <= m && base > 0
    requires DataSame(d, d1, base, {s'[DIRECT]})
    requires DataSame(d1, d2, base, BlocksFrom(AllOf(d1, s'), n - 1, m))
    ensures DataSame(d, d2, base, Owned(d1, s', m))
  {
    SlotParts(d1, s', m, DIRECT);
    forall b | n - 1 <= b < m
      ensures AllOf(d1, s')[b] in Owned(d1, s', m)
    {
      SlotHoldsBlock(d1, s', m, b);
    }
    forall k {:trigger k in d2} | k in d && k >= base && k !in Owned(d1, s', m)
      ensures k in d2 && d2[k] == d[k]
    {
      assert k in d1;
    }
  }

  /** And nothing else has been written anywhere. */
  lemma WrittenOnly(d: map<nat, Sector>, d1: map<nat, Sector>, d2: map<nat, Sector>, bits: seq<bool>, base: nat,
                    s: seq<U32>, n: nat, m: nat, x: nat)
    requires SoundAt(d1, bits, base, s, m) && AreaOnDisk(d1, bits, base) && 1 <= n <= m
    requires DataSame(d1, d2, base, BlocksFrom(AllOf(d1, s), n - 1, m))
    requires x in d && x in d1 && x in d2 && x !in Owned(d2, s, m)
    requires d1[x] == d[x] || (m > DIRECT && x == s[DIRECT])
    requires d2[x] == d1[x] || x in BlocksFrom(AllOf(d1, s), n - 1, m)
    ensures d2[x] == d[x]
  {
    DataLeavesTable(d1, d2, bits, base, s, n - 1, m);
    SlotParts(d1, s, m, DIRECT);
    forall b | n - 1 <= b < m
      ensures AllOf(d1, s)[b] in Owned(d1, s, m)
    {
      SlotHoldsBlock(d1, s, m, b);
    }
  }

  /** A successful write: the content grows by the buffer. */
  lemma Appended(d: map<nat, Sector>, d1: map<nat, Sector>, d2: map<nat, Sector>, bits: seq<bool>, bits': seq<bool>,
                 base: nat, i: Inode, s': seq<U32>, m: nat, taken: seq<nat>, buf: seq<Byte>)
    requires Sound(d, bits, base, i) && Count(i) > 0 && base > 0
    requires AreaOnDisk(d, bits, base) && AreaOnDisk(d1, bits', base) && AreaOnDisk(d2, bits', base)
    requires Grown(bits, bits', base, taken) && GrewTo(d, d1, i.iSectors, s', Count(i), m, taken)
    requires (i.iSize + |buf|) / BLOCK + 1 == m <= ALL_BLOCKS
    requires DataSame(d, d1, base, {s'[DIRECT]})
    requires DataSame(d1, d2, base, BlocksFrom(AllOf(d1, s'), Count(i) - 1, m))
    requires Readable(d2, AllOf(d1, s'), m) && Readable(d1, AllOf(d1, s'), m)
    requires Seen(d2, AllOf(d1, s'), i.iSize + |buf|) == Seen(d1, AllOf(d1, s'), i.iSize) + buf
    ensures var i' := i.(iSectors := s', iSize := i.iSize + |buf|);
            && Sound(d2, bits', base, i')
            && HasContent(d, i) && HasContent(d2, i') && Content(d2, i') == Content(d, i) + buf
  {
    hide SoundAt, Grown, GrewTo, TableOf, AllOf, Seen, DataSame;
    GrownContent(d, d1, bits, bits', base, i, s', m, taken);
    DataLeavesTable(d1, d2, bits', base, s', Count(i) - 1, m);
    FirstSlotFilled(d1, bits', base, s', m);
    SeenAgrees(d2, d2, AllOf(d1, s'), AllOf(d2, s'), m, i.iSize + |buf|);
  }

  lemma FirstSlotFilled(d: map<nat, Sector>, bits: seq<bool>, base: nat, s: seq<U32>, n: nat)
    requires SoundAt(d, bits, base, s, n) && n > 0
    ensures s[0] != 0
  {
    AllParts(d, s, 0);
  }

  /** A successful write: everything stays sound, other files stay. */
  lemma AppendedElsewhere(d: map<nat, Sector>, d1: map<nat, Sector>, d2: map<nat, Sector>, bits: seq<bool>,
                          bits': seq<bool>, base: nat, files: map<nat, Inode>,
                           no: nat, i': Inode, m: nat, taken: seq<nat>)
    requires AllSound(d, bits, base, files) && FileOk(d, bits, base, files, no) && base > 0
    requires Count(files[no]) > 0 && AreaOnDisk(d, bits, base) && AreaOnDisk(d1, bits', base)
    requires Grown(bits, bits', base, taken)
    requires GrewTo(d, d1, files[no].iSectors, i'.iSectors, Count(files[no]), m, taken)
    requires DataSame(d, d1, base, {i'.iSectors[DIRECT]})
    requires DataSame(d1, d2, base, BlocksFrom(AllOf(d1, i'.iSectors), Count(files[no]) - 1, m))
    requires i'.iNo == no && Sound(d2, bits', base, i') && Count(i') == m
    ensures AllSound(d2, bits', base, files[no := i'])
    ensures forall k {:trigger files[k]} :: k in files && k != no ==> Kept(d, d2, bits, base, files[k])
  {
    var s, s', n := files[no].iSectors, i'.iSectors, Count(files[no]);
    GrowKeepsSound(d, d1, bits, bits', base, s, s', n, m, taken);
    DataLeavesTable(d1, d2, bits', base, s', n - 1, m);
    GrowOwns(d, d1, bits, bits', base, s, s', n, m, taken);
    WrittenIsOwned(d, d1, d2, bits', base, s', n, m);
    OthersKept(d, d2, bits, bits', base, files, files[no := i'], no, taken);
  }

  /** The blocks a write changes are all in the data area. */
  lemma TableKept(d: map<nat, Sector>, d1: map<nat, Sector>, d2: map<nat, Sector>, bits: seq<bool>, base: nat,
                  table: nat, s: seq<U32>, k: nat, n: nat)
    requires SoundAt(d1, bits, base, s, n) && AreaOnDisk(d1, bits, base) && k <= n && 0 < table <= base
    requires d.Keys == d1.Keys == d2.Keys
    requires DataSame(d, d1, table, {s[DIRECT]}) && DataSame(d1, d2, table, BlocksFrom(AllOf(d1, s), k, n))
    ensures forall x :: x in d && table <= x < base ==> d2[x] == d[x]
  {
    SoundIsPlaced(d1, bits, base, s, n);
    SlotParts(d1, s, n, DIRECT);
    forall x | x in d && table <= x < base
      ensures d2[x] == d[x]
    {
      assert x in d1 && x in d2;
      assert x != s[DIRECT] as nat;
      assert x !in BlocksFrom(AllOf(d1, s), k, n);
    }
  }

  /** A successful write, in all: `table` is where the inode table starts. */
  lemma WrittenInRoom(d: map<nat, Sector>, d1: map<nat, Sector>, d2: map<nat, Sector>, bits: seq<bool>,
                      bits': seq<bool>, base: nat, table: nat, files: map<nat, Inode>, no: nat, i': Inode, m: nat,
                      taken: seq<nat>, buf: seq<Byte>)
    requires AllSound(d, bits, base, files) && FileOk(d, bits, base, files, no) && 0 < table <= base
    requires Count(files[no]) > 0
    requires AreaOnDisk(d, bits, base) && AreaOnDisk(d1, bits', base) && AreaOnDisk(d2, bits', base)
    requires Grown(bits, bits', base, taken)
    requires GrewTo(d, d1, files[no].iSectors, i'.iSectors, Count(files[no]), m, taken)
    requires (files[no].iSize + |buf|) / BLOCK + 1 == m <= ALL_BLOCKS
    requires i' == files[no].(iSectors := i'.iSectors, iSize := files[no].iSize + |buf|)
    requires d.Keys == d1.Keys == d2.Keys && DataSame(d, d1, table, {i'.iSectors[DIRECT]})
    requires DataSame(d1, d2, table, BlocksFrom(AllOf(d1, i'.iSectors), files[no].iSize / BLOCK, m))
    requires Readable(d2, AllOf(d1, i'.iSectors), m) && Readable(d1, AllOf(d1, i'.iSectors), m)
    requires Seen(d2, AllOf(d1, i'.iSectors), files[no].iSize + |buf|)
               == Seen(d1, AllOf(d1, i'.iSectors), files[no].iSize) + buf
    ensures AllSound(d2, bits', base, files[no := i'])
    ensures HasContent(d, files[no]) && HasContent(d2, i') && Content(d2, i') == Content(d, files[no]) + buf
    ensures forall k {:trigger files[k]} :: k in files && k != no ==> Kept(d, d2, bits, base, files[k])
    ensures forall x :: x in d && table <= x < base ==> d2[x] == d[x]
  {
    hide SoundAt, Grown, TableOf, Seen, AllSound, Kept, HasContent, Content;
    var n := Count(files[no]);
    assert DataSame(d, d1, base, {i'.iSectors[DIRECT]});
    assert DataSame(d1, d2, base, BlocksFrom(AllOf(d1, i'.iSectors), n - 1, m));
    Appended(d, d1, d2, bits, bits', base, files[no], i'.iSectors, m, taken, buf);
    AppendedElsewhere(d, d1, d2, bits, bits', base, files, no, i', m, taken);
    GrowKeepsSound(d, d1, bits, bits', base, files[no].iSectors, i'.iSectors, n, m, taken);
    TableKept(d, d1, d2, bits', base, table, i'.iSectors, n - 1, m);
  }

  /** A failed growth: content and size stay, everything stays sound, other files stay. */
  lemma NotAppended(d: map<nat, Sector>, e: map<nat, Sector>, bits: seq<bool>, bits': seq<bool>, base: nat,
                    files: map<nat, Inode>, no: nat, s': seq<U32>, m: nat, taken: seq<nat>)
    requires AllSound(d, bits, base, files) && FileOk(d, bits, base, files, no) && Count(files[no]) > 0
    requires AreaOnDisk(d, bits, base) && AreaOnDisk(e, bits', base)
    requires Grown(bits, bits', base, taken) && DataSame(d, e, base, {})
    requires FellShort(d, e, bits', base, files[no].iSectors, s', Count(files[no]), m, taken)
    ensures var files' := files[no := files[no].(iSectors := s')];
            && AllSound(e, bits', base, files')
            && (forall k {:trigger files[k]} :: k in files && k != no ==> Kept(d, e, bits, base, files[k]))
            && HasContent(d, files[no]) && HasContent(e, files'[no]) && Content(e, files'[no]) == Content(d, files[no])
  {
    ShortContent(d, e, bits, bits', base, files[no], s', m, taken);
    OthersKept(d, e, bits, bits', base, files, files[no := files[no].(iSectors := s')], no, taken);
  }

  // ---------------------------------------------------------------- reading

  lemma SeenSlice(d: map<nat, Sector>, all: seq<U32>, n: nat, size: nat, p: nat, c: nat)
    requires Readable(d, all, n) && (size == 0 || (size - 1) / BLOCK < n)
    requires p % BLOCK + c <= BLOCK && p + c <= size && 0 < c
    ensures p / BLOCK < n && all[p / BLOCK] in d
    ensures d[all[p / BLOCK]][p % BLOCK..p % BLOCK + c] == Seen(d, all, size)[p..p + c]
  {
    var piece, slice := d[all[p / BLOCK]][p % BLOCK..p % BLOCK + c], Seen(d, all, size)[p..p + c];
    forall j: nat | j < c
      ensures piece[j] == slice[j]
    {
      assert (p + j) / BLOCK == p / BLOCK && (p + j) % BLOCK == p % BLOCK + j;
    }
  }

  /** A piece of the content that lies in one block. */
  lemma ContentSlice(d: map<nat, Sector>, i: Inode, p: nat, c: nat)
    requires HasContent(d, i) && p % BLOCK + c <= BLOCK && p + c <= i.iSize && 0 < c
    ensures p / BLOCK < Count(i) && AllOf(d, i.iSectors)[p / BLOCK] in d
    ensures d[AllOf(d, i.iSectors)[p / BLOCK]][p % BLOCK..p % BLOCK + c] == Content(d, i)[p..p + c]
  {
    SeenSlice(d, AllOf(d, i.iSectors), Count(i), i.iSize, p, c);
  }

  // ---------------------------------------------------------------- giving everything back

  /** The blocks that a release goes through: the slots of the inode and, through the table if it has
      one, whatever addresses are in that sector. */
  function Listed(d: map<nat, Sector>, s: seq<U32>): set<nat>
    requires |s| == SLOTS
  {
    (set x: nat | x in s && x != 0) + (set x: nat | x in TableOf(d, s) && x != 0)
  }

  /** The addresses that only the sector of a table not yet in use lists. */
  function Stray(d: map<nat, Sector>, s: seq<U32>, n: nat): set<nat>
    requires |s| == SLOTS
  {
    if n > DIRECT then {} else (set x: nat | x in TableOf(d, s) && x != 0 && x !in s)
  }

  lemma ListedIsOwnedOrStray(d: map<nat, Sector>, bits: seq<bool>, base: nat, s: seq<U32>, n: nat, x: nat)
    requires SoundAt(d, bits, base, s, n)
    ensures x in Listed(d, s) <==> x in Owned(d, s, n) || x in Stray(d, s, n)
    ensures x in Stray(d, s, n) ==> x !in Owned(d, s, n)
  {
    var slots, table := Slots(d, s, n), TableOf(d, s);
    if x in slots {
      var i :| 0 <= i < |slots| && slots[i] == x;
      SlotParts(d, s, n, i);
    }
    if x in s {
      var i :| 0 <= i < SLOTS && s[i] == x;
      assert slots[i] == x;
    }
    if n > DIRECT && x in table && x != 0 {
      var k :| 0 <= k < INDIRECT && table[k] == x;
      assert k < n - DIRECT;
      assert slots[SLOTS + k] == x;
    }
  }

  /** A release goes through the blocks of the file, and besides through the stray addresses. */
  lemma ListedSet(d: map<nat, Sector>, bits: seq<bool>, base: nat, s: seq<U32>, n: nat)
    requires SoundAt(d, bits, base, s, n)
    ensures Listed(d, s) == Owned(d, s, n) + Stray(d, s, n) && Owned(d, s, n) !! Stray(d, s, n)
  {
    forall x: nat
      ensures x in Listed(d, s) <==> x in Owned(d, s, n) || x in Stray(d, s, n)
      ensures x in Stray(d, s, n) ==> x !in Owned(d, s, n)
    {
      ListedIsOwnedOrStray(d, bits, base, s, n, x);
    }
  }

  /** None of the stray addresses is a block that is in use. */
  ghost predicate StrayIsFree(d: map<nat, Sector>, bits: seq<bool>, base: nat, s: seq<U32>, n: nat)
    requires |s| == SLOTS
  {
    forall x: nat :: x in Stray(d, s, n) ==> !Taken(bits, base, x)
  }

  lemma StrayBlockFreed(bits: seq<bool>, bits': seq<bool>, base: nat, listed: set<nat>, owned: set<nat>, x: nat)
    requires Shrunk(bits, bits', base, listed) && x in listed && x !in owned && Taken(bits, base, x)
    ensures !Shrunk(bits, bits', base, owned)
  {
    assert !bits'[x - base] && bits[x - base] && base + (x - base) == x;
  }

  /** A release that clears the bits of all blocks it lists frees exactly the blocks of the file if and
      only if no stray address is in use. */
  lemma ReleaseIsExactIff(d: map<nat, Sector>, bits: seq<bool>, bits': seq<bool>, base: nat, s: seq<U32>, n: nat)
    requires SoundAt(d, bits, base, s, n) && Shrunk(bits, bits', base, Listed(d, s))
    ensures Shrunk(bits, bits', base, Owned(d, s, n)) <==> StrayIsFree(d, bits, base, s, n)
  {
    ListedSet(d, bits, base, s, n);
    forall x: nat | Shrunk(bits, bits', base, Owned(d, s, n)) && x in Stray(d, s, n)
      ensures !Taken(bits, base, x)
    {
      if Taken(bits, base, x) { StrayBlockFreed(bits, bits', base, Listed(d, s), Owned(d, s, n), x); }
    }
    forall i | StrayIsFree(d, bits, base, s, n) && 0 <= i < |bits|
      ensures bits'[i] <==> bits[i] && base + i !in Owned(d, s, n)
    {
      assert base + i in Stray(d, s, n) ==> !Taken(bits, base, base + i);
    }
  }

  /** There is none if the table is in use or the file has none. */
  lemma NoStray(d: map<nat, Sector>, s: seq<U32>, n: nat)
    requires |s| == SLOTS && (n > DIRECT || s[DIRECT] == 0)
    ensures Stray(d, s, n) == {}
  {
  }

  /** So a file whose table is in use, or that has none, is released exactly; only block 0 must not be
      among its blocks. */
  lemma ReleasedWhole(d: map<nat, Sector>, bits: seq<bool>, base: nat, i: Inode)
    requires Sound(d, bits, base, i) && base !in OwnedBy(d, i)
    requires i.iSize / BLOCK >= DIRECT || i.iSectors[DIRECT] == 0
    ensures StrayIsFree(d, bits, base, i.iSectors, Count(i))
    ensures forall x :: x in Listed(d, i.iSectors) ==> InArea(bits, base, x) && x != base
  {
    NoStray(d, i.iSectors, Count(i));
    ListedSet(d, bits, base, i.iSectors, Count(i));
    forall x | x in Listed(d, i.iSectors)
      ensures InArea(bits, base, x)
    {
      OwnedIsTaken(d, bits, base, i.iSectors, Count(i), x);
    }
  }

  /** A file of one block, 11, with a table, 12, taken by a write that failed; what the sector held before
      starts with the address of another file's block. The release frees that block too. */
  lemma StrayBlockExample(d: map<nat, Sector>, s: seq<U32>)
    requires |s| == SLOTS && s[0] == 11 && s[DIRECT] == 12 && forall i :: 1 <= i < DIRECT ==> s[i] == 0
    requires 12 in d && GetWords(d[12])[0] == 13
    ensures SoundAt(d, [true, true, true, true], 10, s, 1)
    ensures 13 in Listed(d, s) && 13 !in Owned(d, s, 1) && !StrayIsFree(d, [true, true, true, true], 10, s, 1)
  {
    hide GetWords;
    assert Slots(d, s, 1) == s;
    assert TableOf(d, s)[0] as nat == 13;
    assert 13 as nat in Stray(d, s, 1) && Taken([true, true, true, true], 10, 13);
  }

  /** A file that owned none of the blocks given back stays as it was. */
  lemma KeptByRelease(d: map<nat, Sector>, e: map<nat, Sector>, bits: seq<bool>, bits': seq<bool>, base: nat,
                      freed: set<nat>, i: Inode)
    requires Sound(d, bits, base, i) && AreaOnDisk(d, bits, base) && Shrunk(bits, bits', base, freed)
    requires OwnedBy(d, i) !! freed && DataSame(d, e, base, {})
    ensures Sound(e, bits', base, i) && Kept(d, e, bits, base, i)
  {
    forall x | x in OwnedBy(d, i)
      ensures Taken(bits', base, x) && x in d && x in e && e[x] == d[x]
    {
      OwnedIsTaken(d, bits, base, i.iSectors, Count(i), x);
      assert bits'[x - base];
    }
    FileKept(d, e, bits, bits', base, i);
  }

  /** The other files after a release. */
  lemma OthersAfterRelease(d: map<nat, Sector>, e: map<nat, Sector>, bits: seq<bool>, bits': seq<bool>, base: nat,
                           files: map<nat, Inode>, no: nat)
    requires AllSound(d, bits, base, files) && FileOk(d, bits, base, files, no) && AreaOnDisk(d, bits, base)
    requires Shrunk(bits, bits', base, OwnedBy(d, files[no])) && DataSame(d, e, base, {})
    ensures AllSound(e, bits', base, files - {no})
    ensures forall k {:trigger files[k]} :: k in files && k != no ==> Kept(d, e, bits, base, files[k])
  {
    var rest := files - {no};
    forall k | k in files && k != no
      ensures FileOk(e, bits', base, rest, k) && Kept(d, e, bits, base, files[k])
    {
      assert FileOk(d, bits, base, files, k) && Apart(d, files, no, k);
      KeptByRelease(d, e, bits, bits', base, OwnedBy(d, files[no]), files[k]);
    }
    forall j, k | j in rest && k in rest && j != k
      ensures Apart(e, rest, j, k)
    {
      assert FileOk(e, bits', base, rest, j) && FileOk(e, bits', base, rest, k);
      assert Kept(d, e, bits, base, files[j]) && Kept(d, e, bits, base, files[k]) && Apart(d, files, j, k);
    }
  }
}
