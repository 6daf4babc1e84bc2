/**
  The frame decoder inside handleCharacteristicValueChanged of
  client/src/hooks/useBluetooth.ts: three `getFloat32(offset, true)` reads at
  byte offsets 0, 4 and 8 of the notification's backing buffer. Each read is
  kept as the 32-bit little-endian word it takes in, the bit pattern of an
  IEEE 754-2008 binary32 value (section 3.4 of IEEE 754-2008 gives its
  layout); turning that pattern into a number is not modelled.
 */
module Frame {
  import opened Wrappers

  newtype byte = x: int | 0 <= x < 256
  newtype u32 = x: int | 0 <= x < 0x1_0000_0000

  const FrameSize: nat := 12

  /** Four bytes, least significant first. */
  function WordLE(b0: byte, b1: byte, b2: byte, b3: byte): (w: u32)
    ensures w as int % 0x100 == b0 as int && w as int / 0x100_0000 == b3 as int
  {
    (b0 as int + 0x100 * b1 as int + 0x1_0000 * b2 as int + 0x100_0000 * b3 as int) as u32
  }

  /** One `getFloat32(offset, true)`: the word at `offset`, or the RangeError
      DataView throws when the four bytes do not fit in the buffer. */
  function GetWord(buf: seq<byte>, offset: nat): (r: Option<u32>)
    ensures r.Some? <==> offset + 4 <= |buf|
  {
    if offset + 4 <= |buf| then Some(WordLE(buf[offset], buf[offset + 1], buf[offset + 2], buf[offset + 3]))
    else None
  }

  /** The three axes as binary32 bit patterns. */
  datatype Words = Words(x: u32, y: u32, z: u32)

  /** The three reads in order; the first that throws ends the decode, and
      only when all three succeed is a value produced. */
  function DecodeFrame(buf: seq<byte>): (r: Option<Words>)
    ensures r.Some? <==> |buf| >= FrameSize
    ensures r.Some? ==> r.value == Words(GetWord(buf, 0).value, GetWord(buf, 4).value, GetWord(buf, 8).value)
  {
    match GetWord(buf, 0)
    case None => None
    case Some(x) =>
      match GetWord(buf, 4)
      case None => None
      case Some(y) =>
        match GetWord(buf, 8)
        case None => None
        case Some(z) => Some(Words(x, y, z))
  }

  /** The little-endian bytes of a word: what a sender's `setFloat32(…, true)` writes. */
  function EncodeWord(w: u32): (b: seq<byte>)
    ensures |b| == 4
  {
    var n := w as int;
    var n1 := n / 0x100;
    var n2 := n1 / 0x100;
    var n3 := n2 / 0x100;
    [(n % 0x100) as byte, (n1 % 0x100) as byte, (n2 % 0x100) as byte, n3 as byte]
  }

  /** A value split into its low byte and the rest. */
  lemma SplitByte(hi: int, lo: int)
    requires 0 <= lo < 0x100
    ensures (0x100 * hi + lo) / 0x100 == hi && (0x100 * hi + lo) % 0x100 == lo
  {
  }

  lemma DecodeEncodeWord(w: u32)
    ensures GetWord(EncodeWord(w), 0) == Some(w)
  {
    var n := w as int;
    var n1 := n / 0x100;
    var n2 := n1 / 0x100;
    var n3 := n2 / 0x100;
    assert n == n % 0x100 + 0x100 * n1;
    assert n1 == n1 % 0x100 + 0x100 * n2;
    assert n2 == n2 % 0x100 + 0x100 * n3;
    assert n == n % 0x100 + 0x100 * (n1 % 0x100) + 0x1_0000 * (n2 % 0x100) + 0x100_0000 * n3;
  }

  lemma EncodeDecodeWord(b: seq<byte>)
    requires |b| == 4
    ensures EncodeWord(GetWord(b, 0).value) == b
  {
    var n2 := b[2] as int + 0x100 * b[3] as int;
    var n1 := b[1] as int + 0x100 * n2;
    var n := b[0] as int + 0x100 * n1;
    assert GetWord(b, 0).value as int == n;
    SplitByte(n1, b[0] as int);
    SplitByte(n2, b[1] as int);
    SplitByte(b[3] as int, b[2] as int);
  }

  function EncodeFrame(w: Words): (b: seq<byte>)
    ensures |b| == FrameSize
  {
    EncodeWord(w.x) + EncodeWord(w.y) + EncodeWord(w.z)
  }

  lemma GetWordPrefix(buf: seq<byte>, offset: nat, n: nat)
    requires offset + 4 <= n <= |buf|
    ensures GetWord(buf, offset) == GetWord(buf[..n], offset)
  {
  }

  lemma GetWordShift(a: seq<byte>, b: seq<byte>, offset: nat)
    requires offset + 4 <= |b|
    ensures GetWord(a + b, |a| + offset) == GetWord(b, offset)
  {
  }

  /** Only the first twelve bytes are read: trailing bytes never change the result. */
  lemma DecodeIgnoresTrailing(buf: seq<byte>, trailing: seq<byte>)
    requires |buf| >= FrameSize
    ensures DecodeFrame(buf + trailing) == DecodeFrame(buf)
  {
    GetWordPrefix(buf + trailing, 0, |buf|);
    GetWordPrefix(buf + trailing, 4, |buf|);
    GetWordPrefix(buf + trailing, 8, |buf|);
    assert (buf + trailing)[..|buf|] == buf;
  }

  /** A frame written word by word decodes to those words, whatever follows it. */
  lemma DecodeEncodeFrame(w: Words, trailing: seq<byte>)
    ensures DecodeFrame(EncodeFrame(w) + trailing) == Some(w)
  {
    var ex, ey, ez := EncodeWord(w.x), EncodeWord(w.y), EncodeWord(w.z);
    var buf := EncodeFrame(w);
    DecodeIgnoresTrailing(buf, trailing);
    DecodeEncodeWord(w.x);
    DecodeEncodeWord(w.y);
    DecodeEncodeWord(w.z);
    assert buf == ex + (ey + ez);
    GetWordPrefix(ex + (ey + ez), 0, 4);
    assert (ex + (ey + ez))[..4] == ex;
    GetWordShift(ex, ey + ez, 0);
    GetWordPrefix(ey + ez, 0, 4);
    assert (ey + ez)[..4] == ey;
    assert buf == (ex + ey) + ez;
    GetWordShift(ex + ey, ez, 0);
  }

  /** Decoding reads exactly bytes 0 to 11: re-encoding the words gives them back. */
  lemma EncodeDecodeFrame(buf: seq<byte>)
    requires |buf| >= FrameSize
    ensures EncodeFrame(DecodeFrame(buf).value) == buf[..FrameSize]
  {
    var w := DecodeFrame(buf).value;
    EncodeDecodeWord(buf[0..4]);
    EncodeDecodeWord(buf[4..8]);
    EncodeDecodeWord(buf[8..12]);
    assert buf[..FrameSize] == buf[0..4] + buf[4..8] + buf[8..12];
  }

  // The binary32 fields of a word (IEEE 754-2008 section 3.4).

  function SignBit(w: u32): (s: nat)
    ensures s < 2
  {
    w as int / 0x8000_0000
  }

  function BiasedExponent(w: u32): (e: nat)
    ensures e < 0x100
  {
    w as int / 0x80_0000 % 0x100
  }

  function TrailingSignificand(w: u32): (t: nat)
    ensures t < 0x80_0000
  {
    w as int % 0x80_0000
  }

  /** The three fields partition the word: sign, then exponent, then significand. */
  lemma FieldsCompose(w: u32)
    ensures w as int == SignBit(w) * 0x8000_0000 + BiasedExponent(w) * 0x80_0000 + TrailingSignificand(w)
  {
    var n := w as int;
    assert n / 0x80_0000 == SignBit(w) * 0x100 + BiasedExponent(w);
  }
}
