/** The block map of a mounted partition and its copy on the disk (File_AllocBlockInBlockBitmap and
    File_BitmapSync, fs/file.c:48-57 and 592-614). Bits past the blocks of the partition are
    permanently taken. */
module BlockMap {
  import opened Bitmaps
  import opened Words
  import opened DiskModel
  import opened FsLayout
  import opened FileBlocks

  function Padded(bits: seq<bool>, sects: nat): (r: seq<bool>)
    requires |bits| <= BITS_PER_SECTOR * sects
    ensures |r| == BITS_PER_SECTOR * sects
    ensures forall i :: 0 <= i < |r| ==> r[i] == (i < |bits| ==> bits[i])
  {
    bits + seq(BITS_PER_SECTOR * sects - |bits|, _ => true)
  }

  type Digit = d: int | 0 <= d < 2

  function DigitOf(bit: bool): Digit {
    if bit then 1 else 0
  }

  function PackByte(bits: seq<bool>, i: nat): Byte
    requires 8 * i + 8 <= |bits|
  {
    DigitOf(bits[8 * i]) + 2 * DigitOf(bits[8 * i + 1]) + 4 * DigitOf(bits[8 * i + 2]) + 8 * DigitOf(bits[8 * i + 3])
    + 16 * DigitOf(bits[8 * i + 4]) + 32 * DigitOf(bits[8 * i + 5])
    + 64 * DigitOf(bits[8 * i + 6]) + 128 * DigitOf(bits[8 * i + 7])
  }

  /** Sector `sec` of the packed map. */
  function PackSector(bits: seq<bool>, sec: nat): (r: seq<Byte>)
    requires BITS_PER_SECTOR * (sec + 1) <= |bits|
    ensures |r| == SECTOR
  {
    seq<Byte>(SECTOR, j requires 0 <= j < SECTOR => PackByte(bits, SECTOR * sec + j))
  }

  /** Sector s of the map is on the disk as it is in memory. */
  predicate SectorOnDisk(d: map<nat, Sector>, bits: seq<bool>, lba: nat, sects: nat, s: nat)
    requires |bits| <= BITS_PER_SECTOR * sects && s < sects
  {
    lba + s in d && d[lba + s] == PackSector(Padded(bits, sects), s)
  }

  /** The disk holds the map that is in memory. */
  ghost predicate MapOnDisk(d: map<nat, Sector>, bits: seq<bool>, lba: nat, sects: nat) {
    && |bits| <= BITS_PER_SECTOR * sects
    && forall s: nat :: s < sects ==> SectorOnDisk(d, bits, lba, sects, s)
  }

  lemma PackIsLocal(a: seq<bool>, b: seq<bool>, sec: nat)
    requires |a| == |b| && BITS_PER_SECTOR * (sec + 1) <= |a|
    requires forall i :: BITS_PER_SECTOR * sec <= i < BITS_PER_SECTOR * (sec + 1) ==> a[i] == b[i]
    ensures PackSector(a, sec) == PackSector(b, sec)
  {
    hide PackByte;
    var x, y := PackSector(a, sec), PackSector(b, sec);
    forall j: nat | j < SECTOR
      ensures x[j] == y[j]
    {
      var i := SECTOR * sec + j;
      PackByteIsLocal(a, b, i);
      assert x[j] == PackByte(a, i) && y[j] == PackByte(b, i);
    }
  }

  lemma PackByteIsLocal(a: seq<bool>, b: seq<bool>, i: nat)
    requires 8 * i + 8 <= |a| && 8 * i + 8 <= |b| && forall k :: 8 * i <= k < 8 * i + 8 ==> a[k] == b[k]
    ensures PackByte(a, i) == PackByte(b, i)
  {
  }

  // ---------------------------------------------------------------- the sectors as the kernel has them in memory

  /** Bytes read from the disk, as bytes of a bit map. */
  function InMemory(bytes: seq<Byte>): (r: seq<bv8>)
    ensures |r| == |bytes|
  {
    seq(|bytes|, i requires 0 <= i < |bytes| => bytes[i] as bv8)
  }

  /** The map that is read from the disk. */
  function MapRead(d: map<nat, Sector>, lba: nat, sects: nat): (r: seq<bv8>)
    requires Covers(d, lba, sects)
    ensures |r| == SECTOR * sects
  {
    InMemory(Bytes(d, lba, sects))
  }

  /** A map in memory, byte for byte the one that is read, has these bits; what is behind them is taken. */
  ghost predicate ReadsAs(d: map<nat, Sector>, lba: nat, sects: nat, bits: seq<bool>) {
    && Covers(d, lba, sects) && |bits| <= 8 * |MapRead(d, lba, sects)|
    && forall i {:trigger Used(MapRead(d, lba, sects), i)} :: 0 <= i < 8 * |MapRead(d, lba, sects)| ==>
         (Used(MapRead(d, lba, sects), i) <==> (i < |bits| ==> bits[i]))
  }

  lemma PackedBit(bits: seq<bool>, n: nat, k: nat)
    requires 8 * n + 8 <= |bits| && k < 8
    ensures ByteBit(PackByte(bits, n) as bv8, k) <==> bits[8 * n + k]
  {
    var b := bits[8 * n..8 * n + 8];
    assert PackByte(b, 0) == PackByte(bits, n);
    BitOfSum(b, k);
    BitIsDigit(PackByte(bits, n), k);
  }

  function Weight(k: nat): (w: nat)
    requires k < 8
    ensures w > 0
  {
    match k
    case 0 => 1
    case 1 => 2
    case 2 => 4
    case 3 => 8
    case 4 => 16
    case 5 => 32
    case 6 => 64
    case _ => 128
  }

  lemma BitIsDigit(x: Byte, k: nat)
    requires k < 8
    ensures ByteBit(x as bv8, k) <==> x / Weight(k) % 2 == 1
  {
  }

  /** A byte put together from eight bits, the first one the lowest. */
  lemma BitOfSum(b: seq<bool>, k: nat)
    requires |b| == 8 && k < 8
    ensures (PackByte(b, 0) / Weight(k) % 2 == 1) <==> b[k]
  {
    DigitsOf(DigitOf(b[0]), DigitOf(b[1]), DigitOf(b[2]), DigitOf(b[3]),
             DigitOf(b[4]), DigitOf(b[5]), DigitOf(b[6]), DigitOf(b[7]));
  }

  lemma DigitsOf(a: Digit, b: Digit, c: Digit, d: Digit, e: Digit, f: Digit, g: Digit, h: Digit)
    ensures var x := a + 2 * b + 4 * c + 8 * d + 16 * e + 32 * f + 64 * g + 128 * h;
            && x % 2 == a && x / 2 % 2 == b && x / 4 % 2 == c && x / 8 % 2 == d
            && x / 16 % 2 == e && x / 32 % 2 == f && x / 64 % 2 == g && x / 128 % 2 == h
  {
    var x := a + 2 * b + 4 * c + 8 * d + 16 * e + 32 * f + 64 * g + 128 * h;
    assert x / 2 == b + 2 * c + 4 * d + 8 * e + 16 * f + 32 * g + 64 * h;
    assert x / 4 == c + 2 * d + 4 * e + 8 * f + 16 * g + 32 * h;
    assert x / 8 == d + 2 * e + 4 * f + 8 * g + 16 * h;
    assert x / 16 == e + 2 * f + 4 * g + 8 * h;
    assert x / 32 == f + 2 * g + 4 * h;
    assert x / 64 == g + 2 * h;
  }

  lemma ReadByte(d: map<nat, Sector>, bits: seq<bool>, lba: nat, sects: nat, j: nat)
    requires MapOnDisk(d, bits, lba, sects) && j < SECTOR * sects
    ensures Covers(d, lba, sects) && MapRead(d, lba, sects)[j] == PackByte(Padded(bits, sects), j) as bv8
  {
    hide PackByte;
    forall k | lba <= k < lba + sects
      ensures k in d
    {
      assert SectorOnDisk(d, bits, lba, sects, k - lba);
    }
    var s := j / SECTOR;
    assert SectorOnDisk(d, bits, lba, sects, s) && j == SECTOR * s + j % SECTOR;
    assert Bytes(d, lba, sects)[j] == PackSector(Padded(bits, sects), s)[j % SECTOR];
  }

  /** The map on the disk, bit by bit: bit i is bit i % 8 of byte i / 8. */
  lemma MapReadsAs(d: map<nat, Sector>, bits: seq<bool>, lba: nat, sects: nat)
    requires MapOnDisk(d, bits, lba, sects)
    ensures ReadsAs(d, lba, sects, bits)
  {
    hide PackByte, Used;
    forall k | lba <= k < lba + sects
      ensures k in d
    {
      assert SectorOnDisk(d, bits, lba, sects, k - lba);
    }
    forall i | 0 <= i < 8 * (SECTOR * sects)
      ensures Used(MapRead(d, lba, sects), i) <==> (i < |bits| ==> bits[i])
    {
      ReadByte(d, bits, lba, sects, i / 8);
      PackedBit(Padded(bits, sects), i / 8, i % 8);
      UsedAt(MapRead(d, lba, sects), i);
    }
  }

  lemma UsedAt(bytes: seq<bv8>, i: nat)
    requires i / 8 < |bytes|
    ensures Used(bytes, i) == ByteBit(bytes[i / 8], i % 8)
  {
  }

  /** Only one map reads so; mounting finds the bits there were in memory. */
  lemma ReadBackIsSame(d: map<nat, Sector>, bits: seq<bool>, lba: nat, sects: nat)
    requires MapOnDisk(d, bits, lba, sects)
    ensures Covers(d, lba, sects) && Bits(MapRead(d, lba, sects)) == Padded(bits, sects)
    ensures Bits(MapRead(d, lba, sects))[..|bits|] == bits
  {
    MapReadsAs(d, bits, lba, sects);
    hide Used;
    assert Padded(bits, sects)[..|bits|] == bits;
  }

  // ---------------------------------------------------------------- writing through

  /** Writing through the one sector of the bit that changed is enough. */
  lemma SyncKeepsMap(d: map<nat, Sector>, e: map<nat, Sector>, bits: seq<bool>, lba: nat, sects: nat, i: nat, v: bool)
    requires MapOnDisk(d, bits, lba, sects) && i < |bits|
    requires e == d[lba + i / BITS_PER_SECTOR := PackSector(Padded(bits[i := v], sects), i / BITS_PER_SECTOR)]
    ensures MapOnDisk(e, bits[i := v], lba, sects)
  {
    var now := bits[i := v];
    forall s: nat | s < sects
      ensures SectorOnDisk(e, now, lba, sects, s)
    {
      assert SectorOnDisk(d, bits, lba, sects, s);
      if s != i / BITS_PER_SECTOR {
        PackIsLocal(Padded(bits, sects), Padded(now, sects), s);
      }
    }
  }

  /** The disk after writing through only the sector of bit j. */
  function SyncedAt(d: map<nat, Sector>, now: seq<bool>, lba: nat, sects: nat, j: nat): map<nat, Sector>
    requires |now| <= BITS_PER_SECTOR * sects && j < |now|
  {
    d[lba + j / BITS_PER_SECTOR := PackSector(Padded(now, sects), j / BITS_PER_SECTOR)]
  }

  lemma SharedSectorSynced(bits: seq<bool>, now: seq<bool>, lba: nat, sects: nat, d: map<nat, Sector>, i: nat, j: nat)
    requires MapOnDisk(d, bits, lba, sects) && i < j < |bits| && now == bits[i := true][j := true]
    requires i / BITS_PER_SECTOR == j / BITS_PER_SECTOR
    ensures MapOnDisk(SyncedAt(d, now, lba, sects, j), now, lba, sects)
  {
    forall s: nat | s < sects
      ensures SectorOnDisk(SyncedAt(d, now, lba, sects, j), now, lba, sects, s)
    {
      assert SectorOnDisk(d, bits, lba, sects, s);
      if s != j / BITS_PER_SECTOR { PackIsLocal(Padded(bits, sects), Padded(now, sects), s); }
    }
  }

  /** File_Write takes the indirect table without writing its bit through (file.c:479-489). The write
      that follows for the next block repairs that exactly when both bits share a sector. Here every
      bit is written through. */
  lemma TableBitReachesDiskIff(bits: seq<bool>, lba: nat, sects: nat, d: map<nat, Sector>, i: nat, j: nat)
    requires MapOnDisk(d, bits, lba, sects) && i < j < |bits| && !bits[i]
    ensures var now := bits[i := true][j := true];
            MapOnDisk(SyncedAt(d, now, lba, sects, j), now, lba, sects)
            <==> i / BITS_PER_SECTOR == j / BITS_PER_SECTOR
  {
    hide PackByte;
    var now := bits[i := true][j := true];
    var si := i / BITS_PER_SECTOR;
    if si == j / BITS_PER_SECTOR {
      SharedSectorSynced(bits, now, lba, sects, d, i, j);
    } else {
      assert SectorOnDisk(d, bits, lba, sects, si);
      var k := i / 8 - SECTOR * si;
      assert 0 <= k < SECTOR && SECTOR * si + k == i / 8;
      PackShowsBit(Padded(bits, sects), Padded(now, sects), i);
      assert PackSector(Padded(bits, sects), si)[k] == PackByte(Padded(bits, sects), i / 8);
      assert PackSector(Padded(now, sects), si)[k] == PackByte(Padded(now, sects), i / 8);
      assert !SectorOnDisk(SyncedAt(d, now, lba, sects, j), now, lba, sects, si);
    }
  }

  /** Bit 4095 for the table, bit 4096 for the block after it: the table's bit stays clear on the disk. */
  lemma TableBitLost(bits: seq<bool>, lba: nat, sects: nat, d: map<nat, Sector>)
    requires MapOnDisk(d, bits, lba, sects) && |bits| > 4096 && !bits[4095] && !bits[4096]
    ensures var now := bits[4095 := true][4096 := true];
            !MapOnDisk(SyncedAt(d, now, lba, sects, 4096), now, lba, sects)
  {
    TableBitReachesDiskIff(bits, lba, sects, d, 4095, 4096);
  }

  lemma PackShowsBit(a: seq<bool>, b: seq<bool>, i: nat)
    requires |a| == |b| && i < |a| && 8 * (i / 8) + 8 <= |a| && !a[i] && b[i]
    requires forall k :: 0 <= k < |a| && a[k] ==> b[k]
    ensures PackByte(a, i / 8) < PackByte(b, i / 8)
  {
    var n := i / 8;
    var k := i % 8;
    assert i == 8 * n + k;
  }
}
