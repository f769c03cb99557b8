/** kernel/bitmap.c: bit maps packed into bytes, and the first-fit scan.

    Repaired: the bound of BitmapScan (bitmap.c:70) lets the scan run into the byte after the map. The
    bound is a parameter of `ScanUpTo`; `Scan` passes the number of bits the map has, `ScanAsWritten`
    the bound of the text, and `ScanAsWrittenAgreesIff` says when that makes no difference. */
module Bitmaps {

  function Mask(k: nat): bv8
    requires k < 8
  {
    match k
    case 0 => 0x01
    case 1 => 0x02
    case 2 => 0x04
    case 3 => 0x08
    case 4 => 0x10
    case 5 => 0x20
    case 6 => 0x40
    case _ => 0x80
  }

  predicate ByteBit(b: bv8, k: nat)
    requires k < 8
  {
    b & Mask(k) != 0
  }

  /** Bit i of a map, as BitmapBitIndexUsed and BitmapGet read it. */
  predicate Used(bytes: seq<bv8>, i: nat)
    requires i / 8 < |bytes|
  {
    ByteBit(bytes[i / 8], i % 8)
  }

  /** The mask of a bit is a one at its place, as `1 << (bitIndex % 8)` in the text. */
  lemma MaskIsShift(k: nat)
    requires k < 8
    ensures Mask(k) == 1 << k
  {
  }

  /** So a bit of the map is bit i % 8 of the number in byte i / 8. */
  lemma UsedIsDigit(bytes: seq<bv8>, i: nat)
    requires i / 8 < |bytes|
    ensures Used(bytes, i) <==> (bytes[i / 8] >> (i % 8)) & 1 == 1
  {
    DigitOfByte(bytes[i / 8], i % 8);
  }

  lemma DigitOfByte(b: bv8, k: nat)
    requires k < 8
    ensures ByteBit(b, k) <==> (b >> k) & 1 == 1
  {
    assert k == 0 || k == 1 || k == 2 || k == 3 || k == 4 || k == 5 || k == 6 || k == 7;
  }

  function Bits(bytes: seq<bv8>): (r: seq<bool>)
    ensures |r| == 8 * |bytes|
    ensures forall i :: 0 <= i < 8 * |bytes| ==> r[i] == Used(bytes, i)
  {
    seq(8 * |bytes|, i requires 0 <= i < 8 * |bytes| => Used(bytes, i))
  }

  lemma SetByteBit(b: bv8, k: nat, j: nat)
    requires k < 8 && j < 8
    ensures ByteBit(b | Mask(k), j) <==> (j == k || ByteBit(b, j))
    ensures ByteBit(b & !Mask(k), j) <==> (j != k && ByteBit(b, j))
  {
  }

  /** i starts a run of n free bits. A run of none still has its first bit looked at, as in the code. */
  ghost predicate FreeRun(bits: seq<bool>, i: nat, n: nat) {
    forall j :: i <= j < i + (if n == 0 then 1 else n) && j < |bits| ==> !bits[j]
  }

  /** r is the lowest start of n consecutive free bits with i + n <= limit, or -1 if there is none. */
  ghost predicate IsFirstFit(bits: seq<bool>, limit: nat, n: nat, r: int) {
    && -1 <= r
    && (r >= 0 ==> r + n <= limit && FreeRun(bits, r, n))
    && (forall i :: 0 <= i && i + n <= limit && (r == -1 || i < r) ==> !FreeRun(bits, i, n))
  }

  lemma FirstFitUnique(bits: seq<bool>, limit: nat, n: nat, r: int, q: int)
    requires IsFirstFit(bits, limit, n, r) && IsFirstFit(bits, limit, n, q)
    ensures r == q
  {
  }

  function ByteWith(b: bv8, k: nat, value: bool): bv8
    requires k < 8
  {
    if value then b | Mask(k) else b & !Mask(k)
  }

  /** One bit of one byte changes one bit of the map. */
  lemma BitsWith(was: seq<bv8>, i: nat, value: bool)
    requires i / 8 < |was|
    ensures Bits(was[i / 8 := ByteWith(was[i / 8], i % 8, value)]) == Bits(was)[i := value]
  {
    var now := was[i / 8 := ByteWith(was[i / 8], i % 8, value)];
    forall j: nat | j < 8 * |was|
      ensures Used(now, j) == (if j == i then value else Used(was, j))
    {
      BitWith(was, i, value, j);
    }
    assert Bits(now) == Bits(was)[i := value];
  }

  lemma ByteWithBit(b: bv8, k: nat, value: bool, j: nat)
    requires k < 8 && j < 8
    ensures ByteBit(ByteWith(b, k, value), j) == if j == k then value else ByteBit(b, j)
  {
    SetByteBit(b, k, j);
  }

  lemma BitWith(was: seq<bv8>, i: nat, value: bool, j: nat)
    requires i / 8 < |was| && j / 8 < |was|
    ensures Used(was[i / 8 := ByteWith(was[i / 8], i % 8, value)], j) == if j == i then value else Used(was, j)
  {
    ByteWithBit(was[i / 8], i % 8, value, j % 8);
    assert j == i <==> j / 8 == i / 8 && j % 8 == i % 8;
  }

  /** BitmapSet; the assertions on the index and the value are the caller's duty. */
  method Set(bytes: array<bv8>, len: nat, i: nat, value: bool)
    requires len <= bytes.Length && i / 8 < len
    modifies bytes
    ensures Bits(bytes[..]) == old(Bits(bytes[..]))[i := value]
  {
    BitsWith(bytes[..], i, value);
    if value {
      bytes[i / 8] := bytes[i / 8] | Mask(i % 8);
    } else {
      bytes[i / 8] := bytes[i / 8] & !Mask(i % 8);
    }
    assert bytes[..] == old(bytes[..])[i / 8 := ByteWith(old(bytes[i / 8]), i % 8, value)];
  }

  /** BitmapGet. */
  method Get(bytes: array<bv8>, len: nat, i: nat) returns (bit: bv8)
    requires len <= bytes.Length && i / 8 < len
    ensures bit == (if Bits(bytes[..])[i] then 1 else 0)
  {
    var b := bytes[i / 8] & Mask(i % 8);
    assert b != 0 <==> Used(bytes[..], i);
    match i % 8
    case 0 => bit := b >> 0;
    case 1 => bit := b >> 1;
    case 2 => bit := b >> 2;
    case 3 => bit := b >> 3;
    case 4 => bit := b >> 4;
    case 5 => bit := b >> 5;
    case 6 => bit := b >> 6;
    case _ => bit := b >> 7;
  }

  ghost predicate StrictlyIncreasing(q: seq<nat>) {
    forall i, j :: 0 <= i < j < |q| ==> q[i] < q[j]
  }

  /** A bit before the limit, or the one at it when no bits are asked for. */
  predicate Within(i: nat, limit: nat, n: nat) {
    i < limit || (n == 0 && i == limit)
  }

  /** The bits looked at so far, all before bit `end`. */
  ghost predicate Looked(probes: seq<nat>, end: nat, limit: nat, n: nat) {
    StrictlyIncreasing(probes) && forall k :: 0 <= k < |probes| ==> probes[k] < end && Within(probes[k], limit, n)
  }

  lemma LookedOneMore(probes: seq<nat>, end: nat, limit: nat, n: nat)
    requires Looked(probes, end, limit, n) && Within(end, limit, n)
    ensures Looked(probes + [end], end + 1, limit, n)
  {
  }

  lemma NothingLooked(limit: nat, n: nat)
    ensures Looked([], 0, limit, n)
  {
  }

  lemma AllLooked(probes: seq<nat>, end: nat, limit: nat, n: nat)
    requires Looked(probes, end, limit, n)
    ensures StrictlyIncreasing(probes) && forall k :: 0 <= k < |probes| ==> Within(probes[k], limit, n)
  {
  }

  /** The two nested loops of BitmapScan: first fit, complete, and each bit looked at once at most
      (`probes` records the bits in the order in which they are looked at). The outer loop adds the
      length of the free run and one more, and loses no candidate by it. */
  method ScanUpTo(bytes: array<bv8>, limit: nat, n: nat) returns (r: int, ghost probes: seq<nat>)
    requires limit < 8 * bytes.Length + if n > 0 then 1 else 0
    ensures IsFirstFit(Bits(bytes[..]), limit, n, r)
    ensures StrictlyIncreasing(probes) && (forall k :: 0 <= k < |probes| ==> Within(probes[k], limit, n))
  {
    hide Looked;
    ghost var bits := Bits(bytes[..]);
    probes := [];
    NothingLooked(limit, n);
    var i := 0;
    while i + n <= limit
      invariant forall k :: 0 <= k < i && k + n <= limit ==> !FreeRun(bits, k, n)
      invariant Looked(probes, i, limit, n)
      decreases limit + 1 - i
    {
      var cnt := 0;
      while bytes[(i + cnt) / 8] & Mask((i + cnt) % 8) == 0
        invariant i + cnt <= limit && i + n <= limit && (cnt == 0 || cnt < n)
        invariant forall j :: i <= j < i + cnt ==> !bits[j]
        invariant Looked(probes, i + cnt, limit, n)
        decreases n - cnt
      {
        assert !Used(bytes[..], i + cnt);
        LookedOneMore(probes, i + cnt, limit, n);
        probes := probes + [i + cnt];
        cnt := cnt + 1;
        if cnt >= n {
          AllLooked(probes, i + cnt, limit, n);
          return i, probes;
        }
      }
      assert bits[i + cnt];
      LookedOneMore(probes, i + cnt, limit, n);
      probes := probes + [i + cnt];
      i := i + cnt + 1;
    }
    AllLooked(probes, i, limit, n);
    r := -1;
  }

  /** The scan over a map of len bytes. Only a request for no bits at all looks at a bit behind the last,
      for which one more byte must be readable. */
  method Scan(bytes: array<bv8>, len: nat, n: nat) returns (r: int)
    requires len < bytes.Length + if n > 0 then 1 else 0
    ensures IsFirstFit(Bits(bytes[..]), 8 * len, n, r)
  {
    ghost var probes;
    r, probes := ScanUpTo(bytes, 8 * len, n);
  }

  /** The condition `i + n < (len + 1) * 8` of the text is `i + n <= 8 * len + 7`. */
  method ScanAsWritten(bytes: array<bv8>, len: nat, n: nat) returns (r: int)
    requires len < bytes.Length
    ensures IsFirstFit(Bits(bytes[..]), 8 * len + 7, n, r)
  {
    ghost var probes;
    r, probes := ScanUpTo(bytes, 8 * len + 7, n);
  }

  /** The map after giving back what is in `freed`; bit i stands for base + i. */
  ghost predicate Shrunk(before: seq<bool>, after: seq<bool>, base: nat, freed: set<nat>) {
    && |after| == |before|
    && forall i {:trigger after[i]} :: 0 <= i < |before| ==> (after[i] <==> before[i] && base + i !in freed)
  }

  lemma ShrunkNothing(bits: seq<bool>, base: nat)
    ensures Shrunk(bits, bits, base, {})
  {
  }

  lemma ShrunkOneMore(before: seq<bool>, bits: seq<bool>, base: nat, freed: set<nat>, x: nat)
    requires Shrunk(before, bits, base, freed) && base <= x < base + |bits|
    ensures Shrunk(before, bits[x - base := false], base, freed + {x})
  {
  }

  /** The first fit, from bit i on. */
  ghost function FirstRunFrom(bits: seq<bool>, n: nat, i: nat): (r: int)
    requires n > 0
    ensures r == -1 || i <= r
    ensures r >= 0 ==> r + n <= |bits| && FreeRun(bits, r, n)
    ensures forall k :: i <= k && k + n <= |bits| && (r == -1 || k < r) ==> !FreeRun(bits, k, n)
    decreases |bits| - i
  {
    if i + n > |bits| then -1 else if FreeRun(bits, i, n) then i else FirstRunFrom(bits, n, i + 1)
  }

  /** The first fit in a map given as a value. */
  ghost function FirstRun(bits: seq<bool>, n: nat): (r: int)
    requires n > 0
    ensures IsFirstFit(bits, |bits|, n, r)
  {
    FirstRunFrom(bits, n, 0)
  }

  /** The clear bits of a map. */
  function FreeCount(bits: seq<bool>): nat {
    if bits == [] then 0 else FreeCount(bits[1..]) + if bits[0] then 0 else 1
  }

  lemma {:induction false} FreeCountZero(bits: seq<bool>)
    ensures FreeCount(bits) == 0 <==> forall i :: 0 <= i < |bits| ==> bits[i]
  {
    if bits != [] {
      FreeCountZero(bits[1..]);
      assert forall i :: 1 <= i < |bits| ==> bits[i] == bits[1..][i - 1];
      if forall i :: 0 <= i < |bits| ==> bits[i] { assert forall i :: 0 <= i < |bits[1..]| ==> bits[1..][i]; }
    }
  }

  lemma {:induction false} FreeCountTake(bits: seq<bool>, i: nat)
    requires i < |bits| && !bits[i]
    ensures FreeCount(bits[i := true]) == FreeCount(bits) - 1
  {
    if i == 0 {
      assert bits[0 := true][1..] == bits[1..];
    } else {
      assert bits[i := true][1..] == bits[1..][i - 1 := true];
      FreeCountTake(bits[1..], i - 1);
    }
  }

  /** The two loops of BitmapScan on a map given as a value, for the modules that keep their maps so. */
  method FirstFit(bits: seq<bool>, n: nat) returns (r: int)
    requires n > 0
    ensures IsFirstFit(bits, |bits|, n, r) && r == FirstRun(bits, n)
  {
    var i := 0;
    while i + n <= |bits|
      invariant forall k :: 0 <= k < i && k + n <= |bits| ==> !FreeRun(bits, k, n)
      decreases |bits| + 1 - i
    {
      var cnt := 0;
      while !bits[i + cnt]
        invariant i + cnt < i + n <= |bits|
        invariant forall j :: i <= j < i + cnt ==> !bits[j]
        decreases n - cnt
      {
        cnt := cnt + 1;
        if cnt >= n {
          FirstFitUnique(bits, |bits|, n, i, FirstRun(bits, n));
          return i;
        }
      }
      assert bits[i + cnt];
      i := i + cnt + 1;
    }
    r := -1;
    FirstFitUnique(bits, |bits|, n, r, FirstRun(bits, n));
  }

  /** The scan as written gives the intended answer exactly when the map has room, or no run of free
      bits ends within the first seven bits after it. */
  lemma ScanAsWrittenAgreesIff(bits: seq<bool>, len: nat, n: nat, intended: int, written: int)
    requires IsFirstFit(bits, 8 * len, n, intended) && IsFirstFit(bits, 8 * len + 7, n, written)
    ensures written == intended <==>
              (exists i: nat :: i + n <= 8 * len && FreeRun(bits, i, n))
              || (forall i: nat :: 8 * len < i + n <= 8 * len + 7 ==> !FreeRun(bits, i, n))
  {
    if intended >= 0 {
      assert intended as nat + n <= 8 * len && FreeRun(bits, intended, n);
    }
  }

  /** A full map of one byte before a free byte: the intended answer is "no room", the text finds bit 8
      of a map that has bits 0 to 7. */
  lemma ScanAsWrittenOverruns()
    ensures var bits := Bits([0xFF, 0x00]);
            IsFirstFit(bits, 8, 1, -1) && IsFirstFit(bits, 15, 1, 8)
  {
    var bytes: seq<bv8> := [0xFF, 0x00];
    var bits := Bits(bytes);
    forall j | 0 <= j < 16
      ensures bits[j] <==> j < 8
    {
      assert bits[j] == Used(bytes, j);
      assert j / 8 == 0 || j / 8 == 1;
    }
    forall i: nat | i < 8
      ensures !FreeRun(bits, i, 1)
    {
      assert bits[i];
    }
  }
}
