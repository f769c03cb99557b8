/** The inode table of fs/inode.c: 4096 records of 76 bytes, end to end over 608 sectors, so that a
    record may straddle two sectors and every update is a read-modify-write.

    Repaired: Inode_Write keeps the inode number in 8 bits (inode.c:56); `WriteAsWritten` keeps the
    text. The caller's buffer is taken to hold two sectors, as the comment at inode.c:145 asks for. */
module InodeTable {
  import opened Words
  import opened DiskModel
  import FsLayout

  const RECORD := FsLayout.INODE_SIZE
  const TABLE_SECTS := 608
  const INODES := 4096
  const SLOTS := 13

  datatype Inode = Inode(iNo: U32, iSize: U32, iOpenCnts: U32, writeDeny: bool,
                         iSectors: seq<U32>, prev: U32, next: U32)

  predicate Shaped(i: Inode) {
    |i.iSectors| == SLOTS
  }

  /** The 19 words of the structure, in order. */
  function Fields(i: Inode): (w: seq<U32>)
    requires Shaped(i)
    ensures |w| == RECORD / 4
  {
    [i.iNo, i.iSize, i.iOpenCnts, if i.writeDeny then 1 else 0] + i.iSectors + [i.prev, i.next]
  }

  function OfFields(w: seq<U32>): (i: Inode)
    requires |w| == RECORD / 4
    ensures Shaped(i)
  {
    Inode(w[0], w[1], w[2], w[3] != 0, w[4..17], w[17], w[18])
  }

  function Encode(i: Inode): (r: seq<Byte>)
    requires Shaped(i)
    ensures |r| == RECORD
  {
    PutWords(Fields(i))
  }

  function Decode(bytes: seq<Byte>): (i: Inode)
    requires |bytes| == RECORD
    ensures Shaped(i)
  {
    OfFields(GetWords(bytes))
  }

  lemma FieldsOf(i: Inode)
    requires Shaped(i)
    ensures OfFields(Fields(i)) == i
  {
    assert Fields(i)[4..17] == i.iSectors;
  }

  lemma DecodeAfterEncode(i: Inode)
    requires Shaped(i)
    ensures Decode(Encode(i)) == i
  {
    GetAfterPut(Fields(i));
    FieldsOf(i);
  }

  /** Where the fields stand in a record (fs/inode.h:44-57). */
  lemma RecordLayout(i: Inode)
    requires Shaped(i)
    ensures var r := Encode(i);
            && NumberAt(r, 0) == i.iNo && NumberAt(r, 4) == i.iSize && NumberAt(r, 8) == i.iOpenCnts
            && NumberAt(r, 12) == (if i.writeDeny then 1 else 0)
            && (forall k :: 0 <= k < SLOTS ==> NumberAt(r, 16 + 4 * k) == i.iSectors[k])
            && NumberAt(r, 68) == i.prev && NumberAt(r, 72) == i.next
  {
    hide PutWords, NumberAt;
    var w := Fields(i);
    LittleEndian(w, 0);
    LittleEndian(w, 1);
    LittleEndian(w, 2);
    LittleEndian(w, 3);
    LittleEndian(w, 17);
    LittleEndian(w, 18);
    forall k | 0 <= k < SLOTS
      ensures NumberAt(Encode(i), 16 + 4 * k) == i.iSectors[k]
    {
      LittleEndian(w, 4 + k);
    }
  }

  /** What reaches the disk: the fields that only make sense in memory are cleared. */
  function Persistent(i: Inode): Inode {
    i.(iOpenCnts := 0, writeDeny := false, prev := 0, next := 0)
  }

  /** Number, size and addresses are saved; what only makes sense in memory is zero. */
  lemma SavedRecord(i: Inode)
    requires Shaped(i)
    ensures var r := Encode(Persistent(i));
            && NumberAt(r, 0) == i.iNo && NumberAt(r, 4) == i.iSize && NumberAt(r, 8) == NumberAt(r, 12) == 0
            && (forall k :: 0 <= k < SLOTS ==> NumberAt(r, 16 + 4 * k) == i.iSectors[k])
            && NumberAt(r, 68) == NumberAt(r, 72) == 0
  {
    hide Encode, NumberAt;
    RecordLayout(Persistent(i));
  }

  datatype Position = Position(twoSec: bool, sector: nat, offset: nat)

  function Sectors(p: Position): nat {
    if p.twoSec then 2 else 1
  }

  /** The position lies inside the table, is that of record `no`, and takes in the whole record. */
  predicate Finds(p: Position, base: nat, no: nat) {
    && base <= p.sector && p.sector + Sectors(p) <= base + TABLE_SECTS
    && SECTOR * (p.sector - base) + p.offset == RECORD * no
    && p.offset + RECORD <= SECTOR * Sectors(p)
  }

  /** Inode_Locate. */
  function Locate(base: nat, no: nat): (p: Position)
    requires no < INODES
    ensures Finds(p, base, no)
  {
    var offset := RECORD * no;
    Position(SECTOR - offset % SECTOR < RECORD, base + offset / SECTOR, offset % SECTOR)
  }

  /** The whole table as one run of bytes. */
  function Table(sectors: map<nat, Sector>, base: nat): (r: seq<Byte>)
    requires Covers(sectors, base, TABLE_SECTS)
    ensures |r| == SECTOR * TABLE_SECTS
  {
    Bytes(sectors, base, TABLE_SECTS)
  }

  function Record(sectors: map<nat, Sector>, base: nat, no: nat): (r: seq<Byte>)
    requires Covers(sectors, base, TABLE_SECTS) && no < INODES
    ensures |r| == RECORD
  {
    Table(sectors, base)[RECORD * no..RECORD * no + RECORD]
  }

  /** The inode stored under a number. */
  function Stored(sectors: map<nat, Sector>, base: nat, no: nat): Inode
    requires Covers(sectors, base, TABLE_SECTS) && no < INODES
  {
    Decode(Record(sectors, base, no))
  }

  /** Sectors outside the table are the same. */
  ghost predicate OnlyTable(a: map<nat, Sector>, b: map<nat, Sector>, base: nat) {
    b.Keys == a.Keys && forall k :: k in a && !(base <= k < base + TABLE_SECTS) ==> b[k] == a[k]
  }

  /** Reading the one or two sectors of a record, patching and writing them back patches the table. */
  lemma PatchSectors(sectors: map<nat, Sector>, base: nat, no: nat, rec: seq<Byte>, p: Position, after: map<nat,
                     Sector>)
    requires Covers(sectors, base, TABLE_SECTS) && Finds(p, base, no) && |rec| == RECORD
    requires Covers(sectors, p.sector, Sectors(p))
    requires after == DiskModel.Stored(sectors, p.sector, Sectors(p),
                                       Splice(Bytes(sectors, p.sector, Sectors(p)), p.offset, rec))
    ensures Covers(after, base, TABLE_SECTS) && OnlyTable(sectors, after, base)
    ensures Table(after, base) == Splice(Table(sectors, base), RECORD * no, rec)
  {
    ReadModifyWrite(sectors, base, TABLE_SECTS, p.sector, Sectors(p), p.offset, rec);
  }

  lemma RecordAt(sectors: map<nat, Sector>, base: nat, no: nat, p: Position)
    requires Covers(sectors, base, TABLE_SECTS) && no < INODES && Finds(p, base, no)
    ensures Covers(sectors, p.sector, Sectors(p))
    ensures Bytes(sectors, p.sector, Sectors(p))[p.offset..p.offset + RECORD] == Record(sectors, base, no)
  {
    BytesWithin(sectors, base, TABLE_SECTS, p.sector, Sectors(p));
  }

  /** A patched table holds the new record and every other old one. */
  lemma PatchIsLocal(before: map<nat, Sector>, after: map<nat, Sector>, base: nat, no: nat, rec: seq<Byte>, other: nat)
    requires Covers(before, base, TABLE_SECTS) && Covers(after, base, TABLE_SECTS)
    requires no < INODES && other < INODES && |rec| == RECORD
    requires Table(after, base) == Splice(Table(before, base), RECORD * no, rec)
    ensures Record(after, base, no) == rec
    ensures other != no ==> Record(after, base, other) == Record(before, base, other)
  {
    if other != no {
      forall i | 0 <= i < RECORD
        ensures Record(after, base, other)[i] == Record(before, base, other)[i]
      {
        assert other < no || no < other;
      }
    }
  }

  /** Read, patch, write back. */
  method Patch(disk: Disk, base: nat, no: nat, rec: seq<Byte>)
    requires Covers(disk.sectors, base, TABLE_SECTS) && base + TABLE_SECTS <= MAX_LBA
    requires no < INODES && |rec| == RECORD
    modifies disk
    ensures OnlyTable(old(disk.sectors), disk.sectors, base) && Covers(disk.sectors, base, TABLE_SECTS)
    ensures Table(disk.sectors, base) == Splice(old(Table(disk.sectors, base)), RECORD * no, rec)
  {
    var p := Locate(base, no);
    ghost var before := disk.sectors;
    assert Covers(before, p.sector, Sectors(p));
    var ioBuf := disk.Read(p.sector, Sectors(p));
    ioBuf := Splice(ioBuf, p.offset, rec);
    disk.Write(p.sector, ioBuf, Sectors(p));
    PatchSectors(before, base, no, rec, p, disk.sectors);
  }

  /** Inode_Write: afterwards the number leads to the persistent part of the inode, every other number
      leads where it led, and no sector outside the table has changed. */
  method Write(disk: Disk, base: nat, inode: Inode)
    requires Covers(disk.sectors, base, TABLE_SECTS) && base + TABLE_SECTS <= MAX_LBA
    requires inode.iNo < INODES && Shaped(inode)
    modifies disk
    ensures OnlyTable(old(disk.sectors), disk.sectors, base) && Covers(disk.sectors, base, TABLE_SECTS)
    ensures Stored(disk.sectors, base, inode.iNo) == Persistent(inode)
    ensures forall k: nat :: k < INODES && k != inode.iNo ==>
              Stored(disk.sectors, base, k) == old(Stored(disk.sectors, base, k))
  {
    ghost var before := disk.sectors;
    var pure := Encode(Persistent(inode));
    Patch(disk, base, inode.iNo, pure);
    DecodeAfterEncode(Persistent(inode));
    PatchIsLocal(before, disk.sectors, base, inode.iNo, pure, inode.iNo);
    forall k: nat | k < INODES && k != inode.iNo
      ensures Stored(disk.sectors, base, k) == Stored(before, base, k)
    {
      PatchIsLocal(before, disk.sectors, base, inode.iNo, pure, k);
    }
  }

  /** Inode_Delete: the record becomes zeros, all others stay. */
  method Delete(disk: Disk, base: nat, no: nat)
    requires Covers(disk.sectors, base, TABLE_SECTS) && base + TABLE_SECTS <= MAX_LBA && no < INODES
    modifies disk
    ensures OnlyTable(old(disk.sectors), disk.sectors, base) && Covers(disk.sectors, base, TABLE_SECTS)
    ensures Record(disk.sectors, base, no) == Zeros(RECORD)
    ensures forall k: nat :: k < INODES && k != no ==>
              Stored(disk.sectors, base, k) == old(Stored(disk.sectors, base, k))
  {
    ghost var before := disk.sectors;
    Patch(disk, base, no, Zeros(RECORD));
    PatchIsLocal(before, disk.sectors, base, no, Zeros(RECORD), no);
    forall k: nat | k < INODES && k != no
      ensures Stored(disk.sectors, base, k) == Stored(before, base, k)
    {
      PatchIsLocal(before, disk.sectors, base, no, Zeros(RECORD), k);
    }
  }

  /** The reading half of Inode_Open. */
  method Read(disk: Disk, base: nat, no: nat) returns (inode: Inode)
    requires Covers(disk.sectors, base, TABLE_SECTS) && base + TABLE_SECTS <= MAX_LBA && no < INODES
    ensures inode == Stored(disk.sectors, base, no)
  {
    var p := Locate(base, no);
    RecordAt(disk.sectors, base, no, p);
    var buf := disk.Read(p.sector, Sectors(p));
    inode := Decode(buf[p.offset..p.offset + RECORD]);
  }

  // ---------------------------------------------------------------- Inode_Write as written

  /** The number of the slot that is overwritten is the inode number cut to 8 bits. */
  method WriteAsWritten(disk: Disk, base: nat, inode: Inode)
    requires Covers(disk.sectors, base, TABLE_SECTS) && base + TABLE_SECTS <= MAX_LBA && Shaped(inode)
    modifies disk
    ensures Covers(disk.sectors, base, TABLE_SECTS)
    ensures Table(disk.sectors, base)
              == Splice(old(Table(disk.sectors, base)), RECORD * (inode.iNo % 0x100), Encode(Persistent(inode)))
  {
    var inodeNo := inode.iNo % 0x100;
    Patch(disk, base, inodeNo, Encode(Persistent(inode)));
  }

  /** It leaves the other inodes alone exactly for numbers below 256, or when the victim's record
      happened to be the one written. */
  lemma TruncatedWriteIsLocalIff(before: map<nat, Sector>, after: map<nat, Sector>, base: nat, inode: Inode)
    requires Covers(before, base, TABLE_SECTS) && Covers(after, base, TABLE_SECTS)
    requires inode.iNo < INODES && Shaped(inode)
    requires Table(after, base)
               == Splice(Table(before, base), RECORD * (inode.iNo % 0x100), Encode(Persistent(inode)))
    ensures (forall k: nat :: k < INODES && k != inode.iNo ==> Record(after, base, k) == Record(before, base, k))
            <==> inode.iNo < 0x100 || Record(before, base, inode.iNo % 0x100) == Encode(Persistent(inode))
  {
    hide Encode, Splice, Record, Table;
    var slot := inode.iNo % 0x100;
    PatchIsLocal(before, after, base, slot, Encode(Persistent(inode)), slot);
    forall k: nat | k < INODES && k != slot
      ensures Record(after, base, k) == Record(before, base, k)
    {
      PatchIsLocal(before, after, base, slot, Encode(Persistent(inode)), k);
    }
    assert inode.iNo >= 0x100 ==> slot != inode.iNo;
  }

  /** Saving inode 256 overwrites the record of inode 0, the root directory, if that is another. */
  lemma RootOverwritten(before: map<nat, Sector>, after: map<nat, Sector>, base: nat, inode: Inode)
    requires Covers(before, base, TABLE_SECTS) && Covers(after, base, TABLE_SECTS)
    requires inode.iNo == 256 && Shaped(inode) && Record(before, base, 0) != Encode(Persistent(inode))
    requires Table(after, base) == Splice(Table(before, base), RECORD * (inode.iNo % 0x100), Encode(Persistent(inode)))
    ensures Record(after, base, 0) == Encode(Persistent(inode)) != Record(before, base, 0)
    ensures Record(after, base, 256) == Record(before, base, 256)
  {
    hide Encode, Splice;
    PatchIsLocal(before, after, base, 0, Encode(Persistent(inode)), 256);
  }
}
