/** The disk as a map from sector addresses to 512-byte sectors, with the chunked transfers of
    Ide_Read and Ide_Write (kernel/device/ide.c:176-281). A command names at most 256 sectors and
    passes the number in one byte, where 0 stands for 256. */
module DiskModel {
  import opened Words

  const SECTOR := 512
  const MAX_LBA := 80 * 1024 * 1024 / 512 - 1

  type Sector = s: seq<Byte> | |s| == SECTOR witness Zeros(512)

  /** Sectors [lba, lba + n) exist. */
  predicate Covers(sectors: map<nat, Sector>, lba: nat, n: nat) {
    forall k {:trigger k in sectors} :: lba <= k < lba + n ==> k in sectors
  }

  /** The bytes of n sectors in a row. */
  function Bytes(sectors: map<nat, Sector>, lba: nat, n: nat): (r: seq<Byte>)
    requires Covers(sectors, lba, n)
    ensures |r| == SECTOR * n
    ensures forall i :: 0 <= i < SECTOR * n ==>
              lba + i / SECTOR in sectors && r[i] == sectors[lba + i / SECTOR][i % SECTOR]
  {
    seq(SECTOR * n, i requires 0 <= i < SECTOR * n => sectors[lba + i / SECTOR][i % SECTOR])
  }

  lemma BytesSame(d: map<nat, Sector>, e: map<nat, Sector>, lba: nat, n: nat)
    requires Covers(d, lba, n) && Covers(e, lba, n)
    requires forall k :: k in d && lba <= k < lba + n ==> k in e && e[k] == d[k]
    ensures Bytes(e, lba, n) == Bytes(d, lba, n)
  {
  }

  /** Sector k of n sectors' worth of bytes. */
  function Part(bytes: seq<Byte>, n: nat, k: nat): Sector
    requires |bytes| == SECTOR * n && k < n
  {
    bytes[SECTOR * k..SECTOR * k + SECTOR]
  }

  /** The disk after storing n sectors' worth of bytes from lba on. */
  function Stored(sectors: map<nat, Sector>, lba: nat, n: nat, bytes: seq<Byte>): (r: map<nat, Sector>)
    requires |bytes| == SECTOR * n && Covers(sectors, lba, n)
    ensures r.Keys == sectors.Keys
    ensures forall k :: k in sectors ==>
              r[k] == if lba <= k < lba + n then Part(bytes, n, k - lba) else sectors[k]
  {
    map k | k in sectors :: if lba <= k < lba + n then Part(bytes, n, k - lba) else sectors[k]
  }

  lemma PartOfBoth(p: seq<Byte>, a: nat, q: seq<Byte>, b: nat, k: nat)
    requires |p| == SECTOR * a && |q| == SECTOR * b && k < a + b
    ensures Part(p + q, a + b, k) == if k < a then Part(p, a, k) else Part(q, b, k - a)
  {
    if k < a {
      assert (p + q)[SECTOR * k..SECTOR * k + SECTOR] == p[SECTOR * k..SECTOR * k + SECTOR];
    } else {
      var c := k - a;
      assert (p + q)[SECTOR * k..SECTOR * k + SECTOR] == q[SECTOR * c..SECTOR * c + SECTOR];
    }
  }

  /** Storing in two steps is storing once. */
  lemma StoredTwice(sectors: map<nat, Sector>, lba: nat, p: seq<Byte>, a: nat, q: seq<Byte>, b: nat)
    requires |p| == SECTOR * a && |q| == SECTOR * b && Covers(sectors, lba, a + b)
    ensures Stored(Stored(sectors, lba, a, p), lba + a, b, q) == Stored(sectors, lba, a + b, p + q)
  {
    var once, twice := Stored(sectors, lba, a + b, p + q), Stored(Stored(sectors, lba, a, p), lba + a, b, q);
    forall k | k in sectors
      ensures once[k] == twice[k]
    {
      if lba <= k < lba + a + b { PartOfBoth(p, a, q, b, k - lba); }
    }
    assert once.Keys == twice.Keys;
  }

  /** The chunk from sector `done` on. */
  lemma StoredNext(sectors: map<nat, Sector>, lba: nat, buf: seq<Byte>, count: nat, done: nat, op: nat)
    requires |buf| == SECTOR * count && done + op <= count && Covers(sectors, lba, count)
    ensures var part := buf[SECTOR * done..SECTOR * (done + op)];
            Stored(Stored(sectors, lba, done, buf[..SECTOR * done]), lba + done, op, part)
              == Stored(sectors, lba, done + op, buf[..SECTOR * (done + op)])
  {
    var part := buf[SECTOR * done..SECTOR * (done + op)];
    assert buf[..SECTOR * done] + part == buf[..SECTOR * (done + op)];
    StoredTwice(sectors, lba, buf[..SECTOR * done], done, part, op);
  }

  lemma StoredNothing(sectors: map<nat, Sector>, lba: nat)
    ensures Stored(sectors, lba, 0, []) == sectors
  {
  }

  /** What the controller moves for a sector count passed in one byte. */
  function Transferred(count: nat): nat {
    if count % 0x100 == 0 then 256 else count % 0x100
  }

  class Disk {
    var sectors: map<nat, Sector>

    constructor (s: map<nat, Sector>)
      ensures sectors == s
    {
      sectors := s;
    }

    method Read(lba: nat, count: nat) returns (buf: seq<Byte>)
      requires lba <= MAX_LBA && count > 0 && Covers(sectors, lba, count)
      ensures buf == Bytes(sectors, lba, count)
    {
      buf := [];
      var done := 0;
      while done < count
        invariant 0 <= done <= count
        invariant |buf| == SECTOR * done
        invariant forall i :: 0 <= i < SECTOR * done ==> buf[i] == sectors[lba + i / SECTOR][i % SECTOR]
      {
        var op := if done + 256 <= count then 256 else count - done;
        buf := buf + Bytes(sectors, lba + done, Transferred(op));
        done := done + op;
      }
    }

    method Write(lba: nat, buf: seq<Byte>, count: nat)
      requires lba <= MAX_LBA && count > 0 && Covers(sectors, lba, count) && |buf| == SECTOR * count
      modifies this
      ensures sectors == Stored(old(sectors), lba, count, buf)
    {
      hide Stored;
      var done := 0;
      ghost var before := sectors;
      StoredNothing(before, lba);
      assert buf[..0] == [];
      while done < count
        invariant 0 <= done <= count
        invariant sectors == Stored(before, lba, done, buf[..SECTOR * done])
      {
        var op := if done + 256 <= count then 256 else count - done;
        var part := buf[SECTOR * done..SECTOR * (done + op)];
        StoredNext(before, lba, buf, count, done, op);
        sectors := Stored(sectors, lba + done, Transferred(op), part);
        done := done + op;
      }
      assert buf[..SECTOR * count] == buf;
    }
  }

  lemma StoredByte(sectors: map<nat, Sector>, base: nat, total: nat, lba: nat, n: nat, bytes: seq<Byte>, j: nat)
    requires Covers(sectors, base, total) && base <= lba && lba + n <= base + total
    requires |bytes| == SECTOR * n && j < SECTOR * total && Covers(sectors, lba, n)
    ensures base + j / SECTOR in sectors
    ensures Stored(sectors, lba, n, bytes)[base + j / SECTOR][j % SECTOR]
              == if SECTOR * (lba - base) <= j < SECTOR * (lba - base) + SECTOR * n
                 then bytes[j - SECTOR * (lba - base)] else sectors[base + j / SECTOR][j % SECTOR]
  {
    hide Stored;
    var k, q := base + j / SECTOR, lba - base;
    assert k in sectors;
    SectorOfByte(j, q, n);
    if lba <= k < lba + n {
      assert Part(bytes, n, k - lba)[j % SECTOR] == bytes[SECTOR * (k - lba) + j % SECTOR];
    }
  }

  /** Which of the n sectors behind the first q a byte lies in. */
  lemma SectorOfByte(j: nat, q: nat, n: nat)
    ensures q <= j / SECTOR < q + n <==> SECTOR * q <= j < SECTOR * q + SECTOR * n
    ensures q <= j / SECTOR ==> SECTOR * (j / SECTOR - q) + j % SECTOR == j - SECTOR * q
  {
    assert j == SECTOR * (j / SECTOR) + j % SECTOR;
  }

  /** What is written is what is read back, and nothing else moves. */
  lemma ReadAfterStore(sectors: map<nat, Sector>, lba: nat, n: nat, bytes: seq<Byte>)
    requires |bytes| == SECTOR * n && Covers(sectors, lba, n)
    ensures Bytes(Stored(sectors, lba, n, bytes), lba, n) == bytes
  {
    var r := Stored(sectors, lba, n, bytes);
    forall i: nat | i < SECTOR * n
      ensures Bytes(r, lba, n)[i] == bytes[i]
    {
      StoredByte(sectors, lba, n, lba, n, bytes, i);
    }
  }

  /** Storing some sectors of a longer run patches the bytes of the run. */
  lemma StoreWithin(sectors: map<nat, Sector>, base: nat, total: nat, lba: nat, n: nat, bytes: seq<Byte>)
    requires Covers(sectors, base, total) && base <= lba && lba + n <= base + total && |bytes| == SECTOR * n
    ensures Covers(sectors, lba, n) && Covers(Stored(sectors, lba, n, bytes), base, total)
    ensures Bytes(Stored(sectors, lba, n, bytes), base, total)
              == Splice(Bytes(sectors, base, total), SECTOR * (lba - base), bytes)
  {
    var r := Stored(sectors, lba, n, bytes);
    forall j: nat | j < SECTOR * total
      ensures Bytes(r, base, total)[j] == Splice(Bytes(sectors, base, total), SECTOR * (lba - base), bytes)[j]
    {
      StoredByte(sectors, base, total, lba, n, bytes, j);
    }
  }

  /** The bytes of some sectors of a run are a slice of its bytes. */
  lemma BytesWithin(sectors: map<nat, Sector>, base: nat, total: nat, lba: nat, n: nat)
    requires Covers(sectors, base, total) && base <= lba && lba + n <= base + total
    ensures Covers(sectors, lba, n)
    ensures Bytes(sectors, lba, n)
              == Bytes(sectors, base, total)[SECTOR * (lba - base)..SECTOR * (lba - base) + SECTOR * n]
  {
    var at := SECTOR * (lba - base);
    var slice := Bytes(sectors, base, total)[at..at + SECTOR * n];
    forall i: nat | i < SECTOR * n
      ensures Bytes(sectors, lba, n)[i] == slice[i]
    {
      assert (at + i) / SECTOR == lba - base + i / SECTOR && (at + i) % SECTOR == i % SECTOR;
    }
  }

  lemma SpliceInSplice(bytes: seq<Byte>, at: nat, len: nat, offset: nat, part: seq<Byte>)
    requires at + len <= |bytes| && offset + |part| <= len
    ensures Splice(bytes, at, Splice(bytes[at..at + len], offset, part)) == Splice(bytes, at + offset, part)
  {
  }

  /** Read n sectors, patch some of their bytes, write them back: the run is patched in that place. */
  lemma ReadModifyWrite(sectors: map<nat, Sector>, base: nat, total: nat, lba: nat, n: nat, offset: nat,
                        part: seq<Byte>)
    requires Covers(sectors, base, total) && base <= lba && lba + n <= base + total
    requires offset + |part| <= SECTOR * n
    ensures Covers(sectors, lba, n)
    ensures var after := Stored(sectors, lba, n, Splice(Bytes(sectors, lba, n), offset, part));
            Covers(after, base, total)
            && Bytes(after, base, total) == Splice(Bytes(sectors, base, total), SECTOR * (lba - base) + offset, part)
  {
    BytesWithin(sectors, base, total, lba, n);
    StoreWithin(sectors, base, total, lba, n, Splice(Bytes(sectors, lba, n), offset, part));
    SpliceInSplice(Bytes(sectors, base, total), SECTOR * (lba - base), SECTOR * n, offset, part);
  }
}
