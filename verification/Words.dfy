/** Bytes, 32-bit words and their little-endian layout in a buffer, as the structures of fs/inode.h are
    laid out when they are copied to and from sectors. */
module Words {

  type Byte = x: int | 0 <= x < 0x100
  type U32 = x: int | 0 <= x < 0x1_0000_0000

  /** Byte k of a word. */
  function ByteOf(x: U32, k: nat): Byte
    requires k < 4
  {
    match k
    case 0 => x % 0x100
    case 1 => x / 0x100 % 0x100
    case 2 => x / 0x100 / 0x100 % 0x100
    case _ => x / 0x100 / 0x100 / 0x100
  }

  function Word(b0: Byte, b1: Byte, b2: Byte, b3: Byte): U32 {
    b0 + 0x100 * b1 + 0x1_0000 * b2 + 0x100_0000 * b3
  }

  function PutWords(words: seq<U32>): (bytes: seq<Byte>)
    ensures |bytes| == 4 * |words|
  {
    seq(4 * |words|, i requires 0 <= i < 4 * |words| => ByteOf(words[i / 4], i % 4))
  }

  function GetWords(bytes: seq<Byte>): (words: seq<U32>)
    requires |bytes| % 4 == 0
    ensures |words| == |bytes| / 4
  {
    seq(|bytes| / 4, i requires 0 <= i < |bytes| / 4 =>
      Word(bytes[4 * i], bytes[4 * i + 1], bytes[4 * i + 2], bytes[4 * i + 3]))
  }

  lemma WordOfBytes(x: U32)
    ensures Word(ByteOf(x, 0), ByteOf(x, 1), ByteOf(x, 2), ByteOf(x, 3)) == x
  {
    var q := x / 0x100;
    var r := q / 0x100;
    assert x == 0x100 * q + x % 0x100 && q == 0x100 * r + q % 0x100 && r == 0x100 * (r / 0x100) + r % 0x100;
  }

  lemma PutAt(words: seq<U32>, i: nat, k: nat)
    requires i < |words| && k < 4
    ensures PutWords(words)[4 * i + k] == ByteOf(words[i], k)
  {
    assert (4 * i + k) / 4 == i && (4 * i + k) % 4 == k;
  }

  lemma WordAt(words: seq<U32>, i: nat)
    requires i < |words|
    ensures GetWords(PutWords(words))[i] == words[i]
  {
    PutAt(words, i, 0);
    PutAt(words, i, 1);
    PutAt(words, i, 2);
    PutAt(words, i, 3);
    WordOfBytes(words[i]);
  }

  lemma GetAfterPut(words: seq<U32>)
    ensures GetWords(PutWords(words)) == words
  {
    forall i | 0 <= i < |words|
      ensures GetWords(PutWords(words))[i] == words[i]
    {
      WordAt(words, i);
    }
  }

  /** The number in four bytes of a buffer, the byte at k for 256 to the k. */
  function NumberAt(bytes: seq<Byte>, at: nat): int
    requires at + 4 <= |bytes|
  {
    var b0: int, b1: int, b2: int, b3: int := bytes[at], bytes[at + 1], bytes[at + 2], bytes[at + 3];
    b0 + 256 * b1 + 65536 * b2 + 16777216 * b3
  }

  /** The words stand in the buffer one after the other, low byte first. */
  lemma LittleEndian(words: seq<U32>, i: nat)
    requires i < |words|
    ensures NumberAt(PutWords(words), 4 * i) == words[i]
  {
    PutAt(words, i, 0);
    PutAt(words, i, 1);
    PutAt(words, i, 2);
    PutAt(words, i, 3);
    WordOfBytes(words[i]);
  }

  /** And are read so. */
  lemma ReadLittleEndian(bytes: seq<Byte>, i: nat)
    requires |bytes| % 4 == 0 && 4 * i < |bytes|
    ensures GetWords(bytes)[i] == NumberAt(bytes, 4 * i)
  {
  }

  /** Replace the bytes from `at` on by `part`. */
  function Splice(bytes: seq<Byte>, at: nat, part: seq<Byte>): (r: seq<Byte>)
    requires at + |part| <= |bytes|
    ensures |r| == |bytes|
    ensures forall i :: 0 <= i < |bytes| ==>
              r[i] == if at <= i < at + |part| then part[i - at] else bytes[i]
  {
    bytes[..at] + part + bytes[at + |part|..]
  }

  function Zeros(n: nat): (r: seq<Byte>)
    ensures |r| == n && forall i :: 0 <= i < n ==> r[i] == 0
  {
    seq(n, _ => 0)
  }
}
