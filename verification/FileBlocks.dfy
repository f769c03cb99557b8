/** How a file is laid out over blocks: 12 direct blocks and one indirect table of 128, what it means
    for a file to own blocks, and the lemmas about growing a file and about leaving others alone. */
module FileBlocks {
  import opened Bitmaps
  import opened Common
  import opened Words
  import opened DiskModel
  import opened InodeTable

  const DIRECT := 12
  const INDIRECT := 128
  const ALL_BLOCKS := DIRECT + INDIRECT
  const BLOCK := 512

  // ---------------------------------------------------------------- the block map

  /** The data area of a partition: block i of the map is sector base + i. */
  predicate InArea(bits: seq<bool>, base: nat, lba: nat) {
    base <= lba < base + |bits|
  }

  predicate Taken(bits: seq<bool>, base: nat, lba: nat) {
    InArea(bits, base, lba) && bits[lba - base]
  }

  /** The map after taking the free blocks `taken`, one after the other. */
  ghost predicate Grown(before: seq<bool>, after: seq<bool>, base: nat, taken: seq<nat>) {
    && |after| == |before| && NoDup(taken)
    && (forall k :: 0 <= k < |taken| ==> InArea(before, base, taken[k]) && !before[taken[k] - base])
    && (forall i {:trigger after[i]} :: 0 <= i < |before| ==> (after[i] <==> before[i] || base + i in taken))
    && FreeCount(after) + |taken| == FreeCount(before)
  }

  lemma GrownNothing(bits: seq<bool>, base: nat)
    ensures Grown(bits, bits, base, [])
  {
  }

  lemma GrownInArea(before: seq<bool>, after: seq<bool>, base: nat, taken: seq<nat>, k: nat)
    requires Grown(before, after, base, taken) && k < |taken|
    ensures InArea(after, base, taken[k])
  {
    assert InArea(before, base, taken[k]);
  }

  lemma GrownOneMore(before: seq<bool>, bits: seq<bool>, after: seq<bool>, base: nat, taken: seq<nat>, lba: nat)
    requires Grown(before, bits, base, taken) && InArea(bits, base, lba) && !bits[lba - base]
    requires after == bits[lba - base := true]
    ensures Grown(before, after, base, taken + [lba])
  {
    FreeCountTake(bits, lba - base);
  }

  lemma GrownTwice(a: seq<bool>, b: seq<bool>, c: seq<bool>, base: nat, f: seq<nat>, g: seq<nat>)
    requires Grown(a, b, base, f) && Grown(b, c, base, g)
    ensures Grown(a, c, base, f + g)
  {
  }

  // ---------------------------------------------------------------- slots of an inode

  function TableOf(d: map<nat, Sector>, s: seq<U32>): (t: seq<U32>)
    requires |s| == SLOTS
    ensures |t| == INDIRECT
  {
    if s[DIRECT] != 0 && s[DIRECT] in d then GetWords(d[s[DIRECT]]) else seq(INDIRECT, _ => 0)
  }

  /** Block addresses of a file by block number. */
  function AllOf(d: map<nat, Sector>, s: seq<U32>): (r: seq<U32>)
    requires |s| == SLOTS
    ensures |r| == ALL_BLOCKS
  {
    s[..DIRECT] + TableOf(d, s)
  }

  /** The addresses a file of n data blocks can own: its 13 slots and the used part of its table. */
  function Slots(d: map<nat, Sector>, s: seq<U32>, n: nat): (r: seq<U32>)
    requires |s| == SLOTS && n <= ALL_BLOCKS
    ensures |r| == if n <= DIRECT then SLOTS else n + 1
  {
    s + TableOf(d, s)[..if n <= DIRECT then 0 else n - DIRECT]
  }

  /** The slot that holds data block b. */
  function SlotOf(b: nat): nat {
    if b < DIRECT then b else b + 1
  }

  lemma SlotParts(d: map<nat, Sector>, s: seq<U32>, n: nat, i: nat)
    requires |s| == SLOTS && n <= ALL_BLOCKS && i < |Slots(d, s, n)|
    ensures i < SLOTS ==> Slots(d, s, n)[i] == s[i]
    ensures i >= SLOTS ==> i - SLOTS < INDIRECT && Slots(d, s, n)[i] == TableOf(d, s)[i - SLOTS]
  {
  }

  lemma SlotHoldsBlock(d: map<nat, Sector>, s: seq<U32>, n: nat, b: nat)
    requires |s| == SLOTS && b < n <= ALL_BLOCKS
    ensures Slots(d, s, n)[SlotOf(b)] == AllOf(d, s)[b]
  {
  }

  function Owned(d: map<nat, Sector>, s: seq<U32>, n: nat): set<nat>
    requires |s| == SLOTS && n <= ALL_BLOCKS
  {
    set x | x in Slots(d, s, n) && x != 0
  }

  /** n data blocks are in place; no address occurs twice, every address is a taken block of the data
      area, and a table in use lists nothing else. Slots behind the n blocks may hold blocks that an
      earlier write has taken before it failed. */
  ghost predicate SoundAt(d: map<nat, Sector>, bits: seq<bool>, base: nat, s: seq<U32>, n: nat) {
    && |s| == SLOTS && n <= ALL_BLOCKS
    && (n > DIRECT ==> s[DIRECT] != 0)
    && (forall b :: 0 <= b < n ==> AllOf(d, s)[b] != 0)
    && (forall i, j :: 0 <= i < j < |Slots(d, s, n)| && Slots(d, s, n)[i] != 0 ==>
          Slots(d, s, n)[i] != Slots(d, s, n)[j])
    && (forall i :: 0 <= i < |Slots(d, s, n)| && Slots(d, s, n)[i] != 0 ==> Taken(bits, base, Slots(d, s, n)[i]))
    && (n > DIRECT ==> forall k :: n - DIRECT <= k < INDIRECT ==> TableOf(d, s)[k] == 0)
  }

  /** "data blocks = iSize / 512 + 1", and none before the first write. */
  function Count(i: Inode): nat
    requires Shaped(i)
  {
    if i.iSectors[0] == 0 then 0 else i.iSize / BLOCK + 1
  }

  ghost predicate Sound(d: map<nat, Sector>, bits: seq<bool>, base: nat, i: Inode) {
    && Shaped(i) && i.iSize < ALL_BLOCKS * BLOCK
    && (i.iSectors[0] == 0 ==> i.iSize == 0)
    && SoundAt(d, bits, base, i.iSectors, Count(i))
  }

  function OwnedBy(d: map<nat, Sector>, i: Inode): set<nat>
    requires Shaped(i) && i.iSize < ALL_BLOCKS * BLOCK
  {
    Owned(d, i.iSectors, Count(i))
  }

  // ---------------------------------------------------------------- content

  predicate Readable(d: map<nat, Sector>, all: seq<U32>, n: nat) {
    n <= |all| && forall b :: 0 <= b < n ==> all[b] in d
  }

  /** The first `size` bytes seen through the block addresses. */
  function Seen(d: map<nat, Sector>, all: seq<U32>, size: nat): (r: seq<Byte>)
    requires Readable(d, all, if size == 0 then 0 else (size - 1) / BLOCK + 1)
    ensures |r| == size
  {
    seq(size, j requires 0 <= j < size => d[all[j / BLOCK]][j % BLOCK])
  }

  /** The whole data area exists on the disk. */
  predicate AreaOnDisk(d: map<nat, Sector>, bits: seq<bool>, base: nat) {
    forall lba {:trigger lba in d} :: base <= lba < base + |bits| ==> lba in d
  }

  lemma SoundIsReadable(d: map<nat, Sector>, bits: seq<bool>, base: nat, s: seq<U32>, n: nat)
    requires SoundAt(d, bits, base, s, n) && AreaOnDisk(d, bits, base)
    ensures Readable(d, AllOf(d, s), n)
  {
    forall b | 0 <= b < n
      ensures AllOf(d, s)[b] in d
    {
      SlotHoldsBlock(d, s, n, b);
      assert Taken(bits, base, Slots(d, s, n)[SlotOf(b)]);
    }
  }

  /** All blocks of the file can be read. */
  predicate HasContent(d: map<nat, Sector>, i: Inode) {
    && Shaped(i) && i.iSize < ALL_BLOCKS * BLOCK && (i.iSectors[0] == 0 ==> i.iSize == 0)
    && Readable(d, AllOf(d, i.iSectors), Count(i))
  }

  /** The content of a file. */
  function Content(d: map<nat, Sector>, i: Inode): (r: seq<Byte>)
    requires HasContent(d, i)
    ensures |r| == i.iSize
  {
    Seen(d, AllOf(d, i.iSectors), i.iSize)
  }

  /** Where block b of a file is: in its slot, from block 12 on in the table, four bytes for each block. */
  function AddressOf(d: map<nat, Sector>, i: Inode, b: nat): int
    requires Shaped(i) && b < 140 && (b >= 12 ==> i.iSectors[12] in d)
  {
    if b < 12 then i.iSectors[b] else NumberAt(d[i.iSectors[12]], 4 * (b - 12))
  }

  lemma AddressIs(d: map<nat, Sector>, i: Inode, b: nat)
    requires Shaped(i) && b < 140 && (b >= 12 ==> i.iSectors[12] != 0 && i.iSectors[12] in d)
    ensures AllOf(d, i.iSectors)[b] == AddressOf(d, i, b)
  {
    hide NumberAt;
    if b >= 12 { ReadLittleEndian(d[i.iSectors[12]], b - 12); }
  }

  /** Byte j of a file is byte j % 512 of its block j / 512. */
  lemma ByteOfFile(d: map<nat, Sector>, i: Inode, j: nat)
    requires HasContent(d, i) && j < i.iSize && (j >= 6144 ==> i.iSectors[12] != 0 && i.iSectors[12] in d)
    ensures AddressOf(d, i, j / 512) in d && Content(d, i)[j] == d[AddressOf(d, i, j / 512)][j % 512]
  {
    hide AddressOf, AllOf;
    AddressIs(d, i, j / 512);
  }

  // ---------------------------------------------------------------- leaving a file alone

  /** Two disks agree on a set of sectors. */
  ghost predicate AgreeOn(d: map<nat, Sector>, e: map<nat, Sector>, sectors: set<nat>) {
    forall lba :: lba in sectors ==> lba in d && lba in e && d[lba] == e[lba]
  }

  /** A file whose sectors are not written and whose bits are not cleared is the same file. */
  lemma FileFrame(d: map<nat, Sector>, e: map<nat, Sector>, bits: seq<bool>, bits': seq<bool>, base: nat,
                  s: seq<U32>, n: nat)
    requires SoundAt(d, bits, base, s, n) && AgreeOn(d, e, Owned(d, s, n)) && |bits'| == |bits|
    requires forall lba :: lba in Owned(d, s, n) ==> Taken(bits', base, lba)
    ensures Slots(e, s, n) == Slots(d, s, n) && SoundAt(e, bits', base, s, n)
    ensures n > DIRECT ==> TableOf(e, s) == TableOf(d, s)
    ensures forall b :: 0 <= b < n ==> AllOf(e, s)[b] == AllOf(d, s)[b]
  {
    if n > DIRECT {
      assert Slots(d, s, n)[DIRECT] == s[DIRECT];
      assert s[DIRECT] in Owned(d, s, n);
    }
    assert Slots(e, s, n) == Slots(d, s, n);
    forall b | 0 <= b < n
      ensures AllOf(e, s)[b] == AllOf(d, s)[b]
    {
      SlotHoldsBlock(d, s, n, b);
      SlotHoldsBlock(e, s, n, b);
    }
    forall i | 0 <= i < |Slots(e, s, n)| && Slots(e, s, n)[i] != 0
      ensures Taken(bits', base, Slots(e, s, n)[i])
    {
      assert Slots(d, s, n)[i] in Owned(d, s, n);
    }
  }

  lemma OwnedIsTaken(d: map<nat, Sector>, bits: seq<bool>, base: nat, s: seq<U32>, n: nat, x: nat)
    requires SoundAt(d, bits, base, s, n) && x in Owned(d, s, n)
    ensures Taken(bits, base, x)
  {
    var i :| 0 <= i < |Slots(d, s, n)| && Slots(d, s, n)[i] == x;
  }

  lemma StaysTaken(bits: seq<bool>, bits': seq<bool>, base: nat, taken: seq<nat>, x: nat)
    requires Grown(bits, bits', base, taken) && Taken(bits, base, x)
    ensures Taken(bits', base, x) && x !in taken
  {
    assert bits'[x - base];
  }

  // ---------------------------------------------------------------- growing a file

  /** 1 when growing from n to m data blocks calls for the indirect table, else 0. */
  function TableNeed(n: nat, m: nat): nat {
    if n <= DIRECT < m then 1 else 0
  }

  /** The blocks that growing from n to m data blocks takes. */
  function GrowthNeed(n: nat, m: nat): nat
    requires n <= m
  {
    m - n + TableNeed(n, m)
  }

  /** Which of the blocks taken by a growth from n to m a slot is for, or -1: the table comes first, then
      the data blocks in order. */
  function Origin(n: nat, m: nat, i: nat): int {
    var t := TableNeed(n, m);
    if i < DIRECT then (if n <= i < m then t + i - n else -1)
    else if i == DIRECT then t - 1
    else if n <= i - 1 < m then t + (i - 1) - n else -1
  }

  lemma OriginInjective(n: nat, m: nat, i: nat, j: nat)
    requires Origin(n, m, i) == Origin(n, m, j) >= 0
    ensures i == j
  {
  }

  /** The slots of the inode after a growth from n to m has got as far as the blocks `taken`. */
  ghost predicate Filled(s: seq<U32>, s': seq<U32>, n: nat, m: nat, taken: seq<nat>) {
    && |s| == SLOTS && |s'| == SLOTS
    && forall i :: 0 <= i < SLOTS ==>
         s'[i] == if 0 <= Origin(n, m, i) < |taken| then taken[Origin(n, m, i)] else s[i]
  }

  /** The code asserts each slot to be empty when it has a block for it (file.c:465, 488, 505). Slot i is
      not, and its turn comes with the k-th block taken. */
  predicate Clash(s: seq<U32>, n: nat, m: nat, i: nat, k: nat) {
    |s| == SLOTS && i < SLOTS && s[i] != 0 && Origin(n, m, i) == k
  }

  /** No such slot among the first k. */
  ghost predicate NoClash(s: seq<U32>, n: nat, m: nat, k: nat) {
    forall i: nat, j: nat :: j < k ==> !Clash(s, n, m, i, j)
  }

  /** Some slot clashes with the k-th block. */
  ghost predicate ClashWith(s: seq<U32>, n: nat, m: nat, k: nat) {
    exists i: nat :: Clash(s, n, m, i, k)
  }

  /** With `free` blocks to be had, a growth from n to m runs into an assertion that fails. */
  ghost predicate Halts(s: seq<U32>, n: nat, m: nat, free: nat) {
    exists i: nat, k: nat :: k < free && Clash(s, n, m, i, k)
  }

  /** The slots a growth from n to m fills are empty. */
  predicate SlotsFree(s: seq<U32>, n: nat, m: nat)
    requires |s| == SLOTS
  {
    && (forall i :: n <= i < m && i < DIRECT ==> s[i] == 0)
    && (n <= DIRECT < m ==> s[DIRECT] == 0)
  }

  /** However many blocks are free, the assertions hold: exactly if the slots to be filled are empty. */
  lemma AssertionsHoldIff(s: seq<U32>, n: nat, m: nat)
    requires |s| == SLOTS && n <= m <= ALL_BLOCKS
    ensures (forall free :: !Halts(s, n, m, free)) <==> SlotsFree(s, n, m)
    ensures SlotsFree(s, n, m) ==> NoClash(s, n, m, GrowthNeed(n, m))
  {
    if !SlotsFree(s, n, m) {
      var i: nat :| i < SLOTS && s[i] != 0 && Origin(n, m, i) >= 0;
      assert Clash(s, n, m, i, Origin(n, m, i));
      assert Halts(s, n, m, Origin(n, m, i) + 1);
    }
  }

  /** A growth that has failed half-way, tried again, halts exactly if a block has come free since. */
  lemma RetryHaltsIff(s: seq<U32>, s': seq<U32>, n: nat, m: nat, taken: seq<nat>, free: nat)
    requires 1 <= n <= DIRECT && n <= m <= ALL_BLOCKS && 0 < |taken| <= GrowthNeed(n, m) && taken[0] != 0
    requires Filled(s, s', n, m, taken)
    ensures Halts(s', n, m, free) <==> free > 0
  {
    var i := if TableNeed(n, m) == 1 then DIRECT else n;
    assert Clash(s', n, m, i, 0);
  }

  /** The new addresses of a file that has grown from n to m data blocks by the blocks `taken`. */
  ghost predicate GrewTo(d: map<nat, Sector>, e: map<nat, Sector>, s: seq<U32>, s': seq<U32>, n: nat, m: nat,
                         taken: seq<nat>) {
    && n <= m <= ALL_BLOCKS && |taken| == GrowthNeed(n, m)
    && Filled(s, s', n, m, taken) && NoClash(s, n, m, |taken|)
    && (m > DIRECT ==> forall k :: 0 <= k < INDIRECT ==>
          TableOf(e, s')[k] == if DIRECT + k < n then TableOf(d, s)[k]
                               else if DIRECT + k < m then taken[TableNeed(n, m) + DIRECT + k - n] else 0)
  }

  /** Growing within the direct blocks. */
  lemma GrewDirectly(d: map<nat, Sector>, e: map<nat, Sector>, s: seq<U32>, s': seq<U32>, n: nat, taken: seq<nat>)
    requires n + |taken| <= DIRECT
    requires Filled(s, s', n, n + |taken|, taken) && NoClash(s, n, n + |taken|, |taken|)
    ensures GrewTo(d, e, s, s', n, n + |taken|, taken)
  {
  }

  lemma SlotOrigin(d: map<nat, Sector>, e: map<nat, Sector>, s: seq<U32>, s': seq<U32>, n: nat, m: nat,
                   taken: seq<nat>, i: nat)
    requires GrewTo(d, e, s, s', n, m, taken) && i < |Slots(e, s', m)|
    ensures |s| == SLOTS && n <= ALL_BLOCKS && Origin(n, m, i) < |taken|
    ensures Slots(e, s', m)[i] ==
              if Origin(n, m, i) >= 0 then taken[Origin(n, m, i)]
              else if i < |Slots(d, s, n)| then Slots(d, s, n)[i] else 0
  {
    SlotParts(e, s', m, i);
    if i < |Slots(d, s, n)| { SlotParts(d, s, n, i); }
    if i < SLOTS {
      assert i < DIRECT || i == DIRECT;
    } else {
      var k := i - SLOTS;
      assert TableOf(e, s')[k] == if DIRECT + k < n then TableOf(d, s)[k]
                                  else if DIRECT + k < m then taken[TableNeed(n, m) + DIRECT + k - n] else 0;
    }
  }

  lemma AllParts(d: map<nat, Sector>, s: seq<U32>, b: nat)
    requires |s| == SLOTS && b < ALL_BLOCKS
    ensures AllOf(d, s)[b] == if b < DIRECT then s[b] else TableOf(d, s)[b - DIRECT]
  {
  }

  lemma GrownBlocks(d: map<nat, Sector>, e: map<nat, Sector>, s: seq<U32>, s': seq<U32>, n: nat, m: nat,
                    taken: seq<nat>)
    requires GrewTo(d, e, s, s', n, m, taken)
    ensures forall b :: 0 <= b < n ==> AllOf(e, s')[b] == AllOf(d, s)[b]
    ensures forall b :: n <= b < m ==> AllOf(e, s')[b] == taken[TableNeed(n, m) + b - n]
  {
    forall b | 0 <= b < m
      ensures AllOf(e, s')[b] == if b < n then AllOf(d, s)[b] else taken[TableNeed(n, m) + b - n]
    {
      AllParts(d, s, b);
      AllParts(e, s', b);
      if b < DIRECT { assert Origin(n, m, b) == if n <= b then TableNeed(n, m) + b - n else -1; }
    }
  }

  /** Growing keeps the addresses distinct and taken, and nothing is left over. */
  lemma GrowKeepsSound(d: map<nat, Sector>, e: map<nat, Sector>, bits: seq<bool>, bits': seq<bool>, base: nat,
                       s: seq<U32>, s': seq<U32>, n: nat, m: nat, taken: seq<nat>)
    requires SoundAt(d, bits, base, s, n) && base > 0
    requires Grown(bits, bits', base, taken) && GrewTo(d, e, s, s', n, m, taken)
    ensures SoundAt(e, bits', base, s', m)
  {
    GrownBlocks(d, e, s, s', n, m, taken);
    var now := Slots(e, s', m);
    forall i, j | 0 <= i < j < |now| && now[i] != 0
      ensures now[i] != now[j]
    {
      GrownDistinct(d, e, bits, bits', base, s, s', n, m, taken, i, j);
    }
    forall i | 0 <= i < |now| && now[i] != 0
      ensures Taken(bits', base, now[i])
    {
      GrownTaken(d, e, bits, bits', base, s, s', n, m, taken, i);
    }
  }

  lemma GrownTaken(d: map<nat, Sector>, e: map<nat, Sector>, bits: seq<bool>, bits': seq<bool>, base: nat,
                   s: seq<U32>, s': seq<U32>, n: nat, m: nat, taken: seq<nat>, i: nat)
    requires SoundAt(d, bits, base, s, n) && base > 0
    requires Grown(bits, bits', base, taken) && GrewTo(d, e, s, s', n, m, taken)
    requires i < |Slots(e, s', m)| && Slots(e, s', m)[i] != 0
    ensures Taken(bits', base, Slots(e, s', m)[i])
  {
    SlotOrigin(d, e, s, s', n, m, taken, i);
    if Origin(n, m, i) >= 0 {
      assert taken[Origin(n, m, i)] in taken;
    } else {
      assert Taken(bits, base, Slots(d, s, n)[i]);
    }
  }

  lemma GrownDistinct(d: map<nat, Sector>, e: map<nat, Sector>, bits: seq<bool>, bits': seq<bool>, base: nat,
                      s: seq<U32>, s': seq<U32>, n: nat, m: nat, taken: seq<nat>, i: nat, j: nat)
    requires SoundAt(d, bits, base, s, n) && base > 0
    requires Grown(bits, bits', base, taken) && GrewTo(d, e, s, s', n, m, taken)
    requires i < j < |Slots(e, s', m)| && Slots(e, s', m)[i] != 0
    ensures Slots(e, s', m)[i] != Slots(e, s', m)[j]
  {
    hide SoundAt, Grown, GrewTo, Origin, Slots, Taken, InArea;
    SlotOrigin(d, e, s, s', n, m, taken, i);
    SlotOrigin(d, e, s, s', n, m, taken, j);
    var oi, oj := Origin(n, m, i), Origin(n, m, j);
    if oi >= 0 && oj >= 0 {
      if oi == oj { OriginInjective(n, m, i, j); }
      DifferentTaken(bits, bits', base, taken, oi, oj);
    } else if oi >= 0 {
      if j < |Slots(d, s, n)| { TakenIsNew(d, bits, bits', base, s, n, taken, oi, j); }
      DifferentTaken(bits, bits', base, taken, oi, oi);
    } else if oj >= 0 {
      TakenIsNew(d, bits, bits', base, s, n, taken, oj, i);
    } else {
      SlotsDiffer(d, bits, base, s, n, i, j);
    }
  }

  lemma SlotsDiffer(d: map<nat, Sector>, bits: seq<bool>, base: nat, s: seq<U32>, n: nat, i: nat, j: nat)
    requires SoundAt(d, bits, base, s, n) && i < j && i < |Slots(d, s, n)| && Slots(d, s, n)[i] != 0
    ensures j < |Slots(d, s, n)| ==> Slots(d, s, n)[i] != Slots(d, s, n)[j]
  {
  }

  lemma DifferentTaken(bits: seq<bool>, bits': seq<bool>, base: nat, taken: seq<nat>, a: nat, b: nat)
    requires Grown(bits, bits', base, taken) && base > 0 && a < |taken| && b < |taken|
    ensures taken[a] != 0 && (a != b ==> taken[a] != taken[b])
  {
    assert InArea(bits, base, taken[a]);
  }

  /** A block just taken is none of those the file had. */
  lemma TakenIsNew(d: map<nat, Sector>, bits: seq<bool>, bits': seq<bool>, base: nat, s: seq<U32>, n: nat,
                   taken: seq<nat>, a: nat, j: nat)
    requires SoundAt(d, bits, base, s, n) && Grown(bits, bits', base, taken) && base > 0
    requires a < |taken| && j < |Slots(d, s, n)|
    ensures taken[a] != Slots(d, s, n)[j]
  {
    hide TableOf;
    assert InArea(bits, base, taken[a]) && !bits[taken[a] - base];
    assert Slots(d, s, n)[j] != 0 ==> Taken(bits, base, Slots(d, s, n)[j]);
  }

  /** What a grown file owns: what it owned, and the blocks taken for it. */
  lemma GrowOwns(d: map<nat, Sector>, e: map<nat, Sector>, bits: seq<bool>, bits': seq<bool>, base: nat,
                 s: seq<U32>, s': seq<U32>, n: nat, m: nat, taken: seq<nat>)
    requires SoundAt(d, bits, base, s, n) && base > 0
    requires Grown(bits, bits', base, taken) && GrewTo(d, e, s, s', n, m, taken)
    ensures forall x :: x in Owned(e, s', m) <==> x in Owned(d, s, n) || x in taken
  {
    hide SoundAt, Grown, Taken, InArea, Origin;
    var was, now := Slots(d, s, n), Slots(e, s', m);
    forall x | x in Owned(e, s', m)
      ensures x in Owned(d, s, n) || x in taken
    {
      var i :| 0 <= i < |now| && now[i] == x;
      SlotOrigin(d, e, s, s', n, m, taken, i);
    }
    forall x | x in Owned(d, s, n)
      ensures x in Owned(e, s', m)
    {
      var i :| 0 <= i < |was| && was[i] == x;
      OldSlotStays(d, s, n, m, i);
      SlotOrigin(d, e, s, s', n, m, taken, i);
      assert now[i] == x;
    }
    forall k | 0 <= k < |taken|
      ensures taken[k] in Owned(e, s', m)
    {
      NewBlockIsOwned(d, e, bits, bits', base, s, s', n, m, taken, k);
    }
  }

  lemma NewBlockIsOwned(d: map<nat, Sector>, e: map<nat, Sector>, bits: seq<bool>, bits': seq<bool>, base: nat,
                        s: seq<U32>, s': seq<U32>, n: nat, m: nat, taken: seq<nat>, k: nat)
    requires |s| == SLOTS && base > 0 && k < |taken|
    requires Grown(bits, bits', base, taken) && GrewTo(d, e, s, s', n, m, taken)
    ensures taken[k] in Owned(e, s', m)
  {
    var t := TableNeed(n, m);
    var i := if k < t then DIRECT else SlotOf(n + k - t);
    assert Origin(n, m, i) == k;
    SlotOrigin(d, e, s, s', n, m, taken, i);
    assert Slots(e, s', m)[i] == taken[k];
    assert InArea(bits, base, taken[k]);
  }

  lemma OldSlotStays(d: map<nat, Sector>, s: seq<U32>, n: nat, m: nat, i: nat)
    requires |s| == SLOTS && n <= m <= ALL_BLOCKS && NoClash(s, n, m, GrowthNeed(n, m))
    requires i < |Slots(d, s, n)| && Slots(d, s, n)[i] != 0
    ensures Origin(n, m, i) < 0
  {
    SlotParts(d, s, n, i);
    if i < SLOTS && Origin(n, m, i) >= 0 { assert Clash(s, n, m, i, Origin(n, m, i)); }
  }

  // ---------------------------------------------------------------- the four ways of making room

  lemma GrewNothing(d: map<nat, Sector>, bits: seq<bool>, base: nat, s: seq<U32>, n: nat)
    requires SoundAt(d, bits, base, s, n)
    ensures GrewTo(d, d, s, s, n, n, [])
  {
  }

  /** The table sector holds the list of addresses that was written to it. */
  lemma TableWritten(e: map<nat, Sector>, s: seq<U32>, all: seq<U32>)
    requires |s| == SLOTS && |all| == ALL_BLOCKS && s[DIRECT] != 0 && s[DIRECT] in e
    requires e[s[DIRECT]] == PutWords(all[DIRECT..])
    ensures forall k :: 0 <= k < INDIRECT ==> TableOf(e, s)[k] == all[DIRECT + k]
  {
    GetAfterPut(all[DIRECT..]);
  }

  lemma GrewAcross(d: map<nat, Sector>, e: map<nat, Sector>, s: seq<U32>, s': seq<U32>, n: nat, m: nat,
                   taken: seq<nat>, all: seq<U32>)
    requires 1 <= n <= DIRECT < m <= ALL_BLOCKS && |taken| == GrowthNeed(n, m)
    requires Filled(s, s', n, m, taken) && NoClash(s, n, m, |taken|) && |all| == ALL_BLOCKS
    requires forall k :: 0 <= k < INDIRECT ==> TableOf(e, s')[k] == all[DIRECT + k]
    requires forall b :: n <= b < ALL_BLOCKS ==> all[b] == if b < m then taken[1 + b - n] else 0
    ensures GrewTo(d, e, s, s', n, m, taken)
  {
  }

  lemma GrewIndirect(d: map<nat, Sector>, e: map<nat, Sector>, bits: seq<bool>, base: nat, s: seq<U32>, n: nat, m: nat,
                     taken: seq<nat>, all: seq<U32>)
    requires DIRECT < n <= m <= ALL_BLOCKS && |taken| == m - n && SoundAt(d, bits, base, s, n)
    requires |all| == ALL_BLOCKS && forall k :: 0 <= k < INDIRECT ==> TableOf(e, s)[k] == all[DIRECT + k]
    requires forall b :: DIRECT <= b < n || m <= b < ALL_BLOCKS ==> all[b] == TableOf(d, s)[b - DIRECT]
    requires forall b :: n <= b < m ==> all[b] == taken[b - n]
    ensures GrewTo(d, e, s, s, n, m, taken)
  {
  }

  // ---------------------------------------------------------------- what a failure leaves behind

  /** A failed growth: the old blocks are in place, the slots filled so far stay filled, the file is
      sound, and it owns nothing but what it owned and what was taken for it. */
  ghost predicate FellShort(d: map<nat, Sector>, e: map<nat, Sector>, bits': seq<bool>, base: nat,
                            s: seq<U32>, s': seq<U32>, n: nat, m: nat, taken: seq<nat>) {
    && SoundAt(e, bits', base, s', n) && Filled(s, s', n, m, taken)
    && (forall b :: 0 <= b < n ==> AllOf(e, s')[b] == AllOf(d, s)[b])
    && (forall x :: x in Owned(e, s', n) ==> x in Owned(d, s, n) || x in taken)
  }

  /** A failure before the table is in use: the file is sound with its old blocks. */
  lemma ShortOfBlocks(d: map<nat, Sector>, e: map<nat, Sector>, bits: seq<bool>, bits': seq<bool>, base: nat,
                      s: seq<U32>, s': seq<U32>, n: nat, m: nat, taken: seq<nat>)
    requires n <= DIRECT && base > 0
    requires SoundAt(d, bits, base, s, n) && Grown(bits, bits', base, taken) && Filled(s, s', n, m, taken)
    ensures FellShort(d, e, bits', base, s, s', n, m, taken)
  {
    OldBlocksStay(d, e, s, s', n, m, taken);
    ShortOwns(d, e, s, s', n, m, taken);
    ShortIsSound(d, e, bits, bits', base, s, s', n, m, taken);
    hide SoundAt, Filled, Grown, Owned, AllOf;
  }

  lemma ShortIsSound(d: map<nat, Sector>, e: map<nat, Sector>, bits: seq<bool>, bits': seq<bool>, base: nat,
                     s: seq<U32>, s': seq<U32>, n: nat, m: nat, taken: seq<nat>)
    requires n <= DIRECT && base > 0
    requires SoundAt(d, bits, base, s, n) && Grown(bits, bits', base, taken) && Filled(s, s', n, m, taken)
    ensures SoundAt(e, bits', base, s', n)
  {
    OldBlocksStay(d, e, s, s', n, m, taken);
    assert |s'| == SLOTS && Slots(e, s', n) == s';
    hide Filled, Grown, Taken, Origin, AllOf, TableOf;
    forall i | 0 <= i < SLOTS && s'[i] != 0
      ensures Taken(bits', base, s'[i])
    {
      FilledSlotTaken(d, bits, bits', base, s, s', n, m, taken, i);
    }
    forall i, j | 0 <= i < j < SLOTS && s'[i] != 0
      ensures s'[i] != s'[j]
    {
      FilledSlotsDiffer(d, bits, bits', base, s, s', n, m, taken, i, j);
    }
  }

  lemma OldBlocksStay(d: map<nat, Sector>, e: map<nat, Sector>, s: seq<U32>, s': seq<U32>, n: nat, m: nat,
                      taken: seq<nat>)
    requires n <= DIRECT && Filled(s, s', n, m, taken)
    ensures forall b :: 0 <= b < n ==> AllOf(e, s')[b] == AllOf(d, s)[b]
  {
    forall b | 0 <= b < n
      ensures AllOf(e, s')[b] == AllOf(d, s)[b]
    {
      AllParts(d, s, b);
      AllParts(e, s', b);
    }
  }

  lemma ShortOwns(d: map<nat, Sector>, e: map<nat, Sector>, s: seq<U32>, s': seq<U32>, n: nat, m: nat, taken: seq<nat>)
    requires n <= DIRECT && Filled(s, s', n, m, taken)
    ensures forall x :: x in Owned(e, s', n) ==> x in Owned(d, s, n) || x in taken
  {
    assert Slots(d, s, n) == s && Slots(e, s', n) == s';
    forall x | x in Owned(e, s', n)
      ensures x in Owned(d, s, n) || x in taken
    {
      var i :| 0 <= i < SLOTS && s'[i] == x;
      assert s'[i] == s[i] || s'[i] as nat in taken;
    }
  }

  lemma FilledSlotTaken(d: map<nat, Sector>, bits: seq<bool>, bits': seq<bool>, base: nat, s: seq<U32>, s': seq<U32>,
                        n: nat, m: nat, taken: seq<nat>, i: nat)
    requires n <= DIRECT && i < SLOTS
    requires SoundAt(d, bits, base, s, n) && Grown(bits, bits', base, taken) && Filled(s, s', n, m, taken)
    ensures s'[i] != 0 ==> Taken(bits', base, s'[i])
  {
    if 0 <= Origin(n, m, i) < |taken| {
      assert taken[Origin(n, m, i)] in taken;
    } else {
      assert Slots(d, s, n)[i] == s[i];
    }
  }

  lemma FilledSlotsDiffer(d: map<nat, Sector>, bits: seq<bool>, bits': seq<bool>, base: nat, s: seq<U32>, s': seq<U32>,
                          n: nat, m: nat, taken: seq<nat>, i: nat, j: nat)
    requires SoundAt(d, bits, base, s, n) && Grown(bits, bits', base, taken) && Filled(s, s', n, m, taken)
    requires n <= DIRECT && i < j < SLOTS && s'[i] != 0
    ensures s'[i] != s'[j]
  {
    var oi, oj := Origin(n, m, i), Origin(n, m, j);
    assert Slots(d, s, n)[i] == s[i] && Slots(d, s, n)[j] == s[j];
    if 0 <= oi < |taken| && 0 <= oj < |taken| {
      if oi == oj { OriginInjective(n, m, i, j); }
    } else if 0 <= oi < |taken| {
      assert s[j] != 0 ==> Taken(bits, base, s[j]);
    } else if 0 <= oj < |taken| {
      assert Taken(bits, base, s[i]);
    }
  }

  lemma SoundIsShaped(d: map<nat, Sector>, bits: seq<bool>, base: nat, s: seq<U32>, n: nat)
    requires SoundAt(d, bits, base, s, n)
    ensures |s| == SLOTS && n <= ALL_BLOCKS
  {
  }

  lemma OwnedStays(d: map<nat, Sector>, e: map<nat, Sector>, bits: seq<bool>, bits': seq<bool>, base: nat,
                   s: seq<U32>, n: nat, taken: seq<nat>)
    requires SoundAt(d, bits, base, s, n) && AreaOnDisk(d, bits, base) && Grown(bits, bits', base, taken)
    requires forall k :: k in d && k >= base ==> k in e && e[k] == d[k]
    ensures AgreeOn(d, e, Owned(d, s, n)) && |bits'| == |bits|
    ensures forall x :: x in Owned(d, s, n) ==> Taken(bits', base, x)
  {
    hide Slots;
    forall x | x in Owned(d, s, n)
      ensures Taken(bits', base, x) && x in d && x in e && d[x] == e[x]
    {
      OwnedIsTaken(d, bits, base, s, n, x);
      StaysTaken(bits, bits', base, taken, x);
    }
  }

  /** With the table there a growth fills no slot. */
  lemma NothingFilled(d: map<nat, Sector>, e: map<nat, Sector>, bits: seq<bool>, base: nat, s: seq<U32>, n: nat, m: nat,
                      taken: seq<nat>)
    requires DIRECT < n <= ALL_BLOCKS && |s| == SLOTS && SoundAt(e, bits, base, s, n)
    requires Slots(e, s, n) == Slots(d, s, n)
    requires forall b :: 0 <= b < n ==> AllOf(e, s)[b] == AllOf(d, s)[b]
    ensures FellShort(d, e, bits, base, s, s, n, m, taken)
  {
    hide SoundAt, AllOf, Slots;
  }

  /** The table is written last, so a failure leaves the file as it was (and the blocks taken for it
      without an owner). */
  lemma IndirectFailure(d: map<nat, Sector>, e: map<nat, Sector>, bits: seq<bool>, bits': seq<bool>, base: nat,
                        s: seq<U32>, n: nat, m: nat, taken: seq<nat>)
    requires DIRECT < n && SoundAt(d, bits, base, s, n)
    requires AreaOnDisk(d, bits, base) && Grown(bits, bits', base, taken)
    requires forall k :: k in d && k >= base ==> k in e && e[k] == d[k]
    ensures FellShort(d, e, bits', base, s, s, n, m, taken)
  {
    hide SoundAt, TableOf, AllOf, Slots, FellShort;
    OwnedStays(d, e, bits, bits', base, s, n, taken);
    FileFrame(d, e, bits, bits', base, s, n);
    SoundIsShaped(d, bits, base, s, n);
    NothingFilled(d, e, bits', base, s, n, m, taken);
  }

  /** The list the code has gathered agrees with the addresses of the grown file where data will go. */
  lemma GatheredDirect(d: map<nat, Sector>, e: map<nat, Sector>, s: seq<U32>, s': seq<U32>, n: nat, m: nat,
                       taken: seq<nat>, all: seq<U32>)
    requires 1 <= n <= DIRECT && GrewTo(d, e, s, s', n, m, taken)
    requires |all| == ALL_BLOCKS && all[n - 1] == s[n - 1]
    requires forall b :: n <= b < m ==> all[b] == taken[TableNeed(n, m) + b - n]
    ensures forall b :: n - 1 <= b < m ==> all[b] == AllOf(e, s')[b]
  {
    GrownBlocks(d, e, s, s', n, m, taken);
    AllParts(d, s, n - 1);
  }

  lemma GatheredIndirect(d: map<nat, Sector>, e: map<nat, Sector>, s: seq<U32>, n: nat, m: nat,
                         taken: seq<nat>, all: seq<U32>)
    requires DIRECT < n && GrewTo(d, e, s, s, n, m, taken) && |all| == ALL_BLOCKS
    requires forall b :: DIRECT <= b < n ==> all[b] == TableOf(d, s)[b - DIRECT]
    requires forall b :: n <= b < m ==> all[b] == taken[b - n]
    ensures forall b :: n - 1 <= b < m ==> all[b] == AllOf(e, s)[b]
  {
    GrownBlocks(d, e, s, s, n, m, taken);
    AllParts(d, s, n - 1);
  }
}
