/** The byte-level vocabulary shared by the two JPEG tools: the marker codes of ITU-T
    T.81 (ISO/IEC 10918-1), Annex B, Table B.1, the little-endian 16-bit read that
    BinaryReader.ReadUInt16 performs, and the byte swap both tools apply to it to read the
    big-endian words of a JPEG stream. */
module Jpeg {
  /** A byte and an unsigned 16-bit word, as numbers. */
  type byte = x: int | 0 <= x < 0x100
  type ushort = x: int | 0 <= x < 0x1_0000

  /** Start of image. */
  const SOI: ushort := 0xFFD8
  /** End of image. */
  const EOI: ushort := 0xFFD9
  /** Application segment 0 (JFIF). */
  const APP0: ushort := 0xFFE0

  /** The two bytes of a word, most significant first. */
  function HighByte(v: ushort): byte { v / 0x100 }
  function LowByte(v: ushort): byte { v % 0x100 }

  /** ConvertToBigEndian16: `(value >> 8) & 0xFF` is the old high byte, `value & 0xFF` the
      old low byte, and the low byte shifted left by 8 and truncated to 16 bits becomes
      the new high byte. */
  function ConvertToBigEndian16(value: ushort): (r: ushort)
    ensures HighByte(r) == LowByte(value) && LowByte(r) == HighByte(value)
  {
    var originalMsb := (value / 0x100) % 0x100;
    var originalLsb := value % 0x100;
    var newMsb := (originalLsb * 0x100) % 0x1_0000;
    var newLsb := originalMsb;
    WordBytes(originalLsb, originalMsb);
    newMsb + newLsb
  }

  /** The word with high byte h and low byte l. */
  lemma WordBytes(h: byte, l: byte)
    ensures (h * 0x100) % 0x1_0000 == h * 0x100
    ensures 0 <= h * 0x100 + l < 0x1_0000
    ensures HighByte(h * 0x100 + l) == h && LowByte(h * 0x100 + l) == l
  {
  }

  /** A word is determined by its two bytes. */
  lemma WordOfBytes(v: ushort, w: ushort)
    requires HighByte(v) == HighByte(w) && LowByte(v) == LowByte(w)
    ensures v == w
  {
  }

  /** Swapping twice gives the word back. */
  lemma SwapInvolution(v: ushort)
    ensures ConvertToBigEndian16(ConvertToBigEndian16(v)) == v
  {
    WordOfBytes(ConvertToBigEndian16(ConvertToBigEndian16(v)), v);
  }

  /** BinaryReader.ReadUInt16 at a position: the first byte is the low one. */
  function ReadUInt16(bytes: seq<byte>, pos: nat): (r: ushort)
    requires pos + 2 <= |bytes|
    ensures LowByte(r) == bytes[pos] && HighByte(r) == bytes[pos + 1]
  {
    bytes[pos] as int + bytes[pos + 1] as int * 0x100
  }

  /** The big-endian word at a position, the way both tools read one. */
  function ReadBigEndian16(bytes: seq<byte>, pos: nat): (r: ushort)
    requires pos + 2 <= |bytes|
    ensures r == bytes[pos] as int * 0x100 + bytes[pos + 1] as int
  {
    ConvertToBigEndian16(ReadUInt16(bytes, pos))
  }

  /** A big-endian word equals a marker exactly when its two bytes are the marker's bytes,
      high byte first: for SOI that is FF D8, for EOI FF D9, for APP0 FF E0. */
  lemma ReadBigEndianIs(bytes: seq<byte>, pos: nat, m: ushort)
    requires pos + 2 <= |bytes|
    ensures ReadBigEndian16(bytes, pos) == m <==>
              bytes[pos] == HighByte(m) && bytes[pos + 1] == LowByte(m)
  {
    var r := ReadBigEndian16(bytes, pos);
    if bytes[pos] == HighByte(m) && bytes[pos + 1] == LowByte(m) {
      WordOfBytes(r, m);
    }
  }

  /** The bytes of the three markers. */
  lemma MarkerBytes()
    ensures HighByte(SOI) == 0xFF && LowByte(SOI) == 0xD8
    ensures HighByte(EOI) == 0xFF && LowByte(EOI) == 0xD9
    ensures HighByte(APP0) == 0xFF && LowByte(APP0) == 0xE0
  {
  }
}
