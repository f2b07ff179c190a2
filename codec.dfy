/**
 * The register codec shared by the gateways and the ingestion service: a
 * 32-bit quantity travels as two 16-bit holding registers.
 *
 * Both sides configure the payload builder and decoder with
 * byteorder = Big and wordorder = Little: the bytes of each register are
 * big-endian, as section 4.2 of the Modbus Application Protocol
 * Specification V1.1b3 requires, and the low-order word of the 32-bit value
 * is stored in the first register.
 */
module Codec {
  import opened Wrappers

  type Byte = x: int | 0 <= x < 0x100
  type Word = x: int | 0 <= x < 0x1_0000
  type Uint32 = x: int | 0 <= x < 0x1_0000_0000

  /** A float32 is carried as its IEEE-754 bit pattern; its numeric meaning is not modelled. */
  type Float32 = Uint32

  const WORD_RANGE: int := 0x1_0000
  const UINT32_RANGE: int := 0x1_0000_0000

  predicate IsInt32(v: int) {
    -0x8000_0000 <= v < 0x8000_0000
  }

  datatype Endian = Big | Little

  /** The four bytes of a 32-bit pattern, most significant first (struct format '>'). */
  function BigEndianBytes(u: Uint32): (b: seq<Byte>)
    ensures |b| == 4 && BytesValue(b) == u
  {
    var q1 := u / 0x100;
    var q2 := q1 / 0x100;
    [q2 / 0x100, q2 % 0x100, q1 % 0x100, u % 0x100]
  }

  /** The unsigned value of four bytes, most significant first. */
  function BytesValue(b: seq<Byte>): int
    requires |b| == 4
  {
    (b[0] as int) * 0x100_0000 + (b[1] as int) * 0x1_0000 + (b[2] as int) * 0x100 + (b[3] as int)
  }

  function FromBigEndianBytes(b: seq<Byte>): (u: Uint32)
    requires |b| == 4
    ensures BigEndianBytes(u) == b
  {
    var u := BytesValue(b);
    BytesDetermineValue(BigEndianBytes(u), b);
    u
  }

  /** Two byte strings with the same big-endian value are equal. */
  lemma BytesDetermineValue(b: seq<Byte>, c: seq<Byte>)
    requires |b| == 4 && |c| == 4
    requires BytesValue(b) == BytesValue(c)
    ensures b == c
  {
    var b0, b1, b2, b3 := b[0] as int, b[1] as int, b[2] as int, b[3] as int;
    var c0, c1, c2, c3 := c[0] as int, c[1] as int, c[2] as int, c[3] as int;
    DigitsAgree(b0 * 0x1_0000 + b1 * 0x100 + b2, b3, c0 * 0x1_0000 + c1 * 0x100 + c2, c3);
    DigitsAgree(b0 * 0x100 + b1, b2, c0 * 0x100 + c1, c2);
    DigitsAgree(b0, b1, c0, c1);
    assert b == [b0, b1, b2, b3] && c == [c0, c1, c2, c3];
  }

  /** Base-256 numerals agree digit by digit. */
  lemma DigitsAgree(x: int, d: int, y: int, e: int)
    requires 0 <= d < 0x100 && 0 <= e < 0x100 && x * 0x100 + d == y * 0x100 + e
    ensures x == y && d == e
  {
  }

  /** The register value holding two bytes, `first` the more significant one, under `byteorder`. */
  function WordOf(first: Byte, second: Byte, byteorder: Endian): Word {
    if byteorder == Big then (first as int) * 0x100 + second else (second as int) * 0x100 + first
  }

  /** The two bytes stored in a register, more significant first, under `byteorder`. */
  function BytesOf(w: Word, byteorder: Endian): (b: seq<Byte>)
    ensures |b| == 2 && WordOf(b[0], b[1], byteorder) == w
  {
    if byteorder == Big then [w / 0x100, w % 0x100] else [w % 0x100, w / 0x100]
  }

  /** `to_registers` of a payload builder holding one 32-bit field given by its big-endian bytes. */
  function ToRegisters(b: seq<Byte>, byteorder: Endian, wordorder: Endian): (ws: seq<Word>)
    requires |b| == 4
    ensures |ws| == 2
  {
    var high := WordOf(b[0], b[1], byteorder);
    var low := WordOf(b[2], b[3], byteorder);
    if wordorder == Big then [high, low] else [low, high]
  }

  /** The big-endian bytes a payload decoder reassembles from two registers. */
  function FromRegisters(ws: seq<Word>, byteorder: Endian, wordorder: Endian): (b: seq<Byte>)
    requires |ws| == 2
    ensures |b| == 4
  {
    var high := if wordorder == Big then ws[0] else ws[1];
    var low := if wordorder == Big then ws[1] else ws[0];
    BytesOf(high, byteorder) + BytesOf(low, byteorder)
  }

  /** Decoding with the builder's own byte and word order gives back the bytes packed. */
  lemma RegistersRoundTrip(b: seq<Byte>, byteorder: Endian, wordorder: Endian)
    requires |b| == 4
    ensures FromRegisters(ToRegisters(b, byteorder, wordorder), byteorder, wordorder) == b
  {
    var ws := ToRegisters(b, byteorder, wordorder);
    var r := FromRegisters(ws, byteorder, wordorder);
    assert r[..2] == BytesOf(WordOf(b[0], b[1], byteorder), byteorder);
    assert r[2..] == BytesOf(WordOf(b[2], b[3], byteorder), byteorder);
    assert r == r[..2] + r[2..];
  }

  /** The two registers of a 32-bit pattern as both services configure the codec. */
  function Encode32(u: Uint32): (ws: seq<Word>)
    ensures ws == [u % WORD_RANGE, u / WORD_RANGE]
  {
    var b := BigEndianBytes(u);
    assert u % WORD_RANGE == (b[2] as int) * 0x100 + b[3];
    ToRegisters(b, Big, Little)
  }

  /** The 32-bit pattern two registers hold as both services configure the codec. */
  function Decode32(ws: seq<Word>): (u: Uint32)
    requires |ws| == 2
    ensures u == ws[0] + ws[1] * WORD_RANGE
  {
    FromBigEndianBytes(FromRegisters(ws, Big, Little))
  }

  lemma Decode32Encode32(u: Uint32)
    ensures Decode32(Encode32(u)) == u
  {
  }

  lemma Encode32Decode32(ws: seq<Word>)
    requires |ws| == 2
    ensures Encode32(Decode32(ws)) == ws
  {
  }

  /**
   * The word order must agree on both sides: reading the two registers in
   * the other word order returns the original pattern only when its two
   * halves are equal.
   */
  lemma {:induction false} WordOrderMustAgree(u: Uint32)
    ensures FromBigEndianBytes(FromRegisters(Encode32(u), Big, Big)) == u
        <==> u % WORD_RANGE == u / WORD_RANGE
  {
    var lo, hi := u % WORD_RANGE, u / WORD_RANGE;
    var swapped := FromBigEndianBytes(FromRegisters(Encode32(u), Big, Big));
    var b := FromRegisters([lo, hi], Big, Big);
    assert b == BytesOf(lo, Big) + BytesOf(hi, Big);
    assert swapped == lo * WORD_RANGE + hi;
  }

  /** Two's-complement reading of a signed 32-bit value. */
  function ToUnsigned(v: int): (u: Uint32)
    requires IsInt32(v)
    ensures u == v % UINT32_RANGE
  {
    if v < 0 then v + UINT32_RANGE else v
  }

  /** The signed 32-bit value whose two's-complement pattern is `u`. */
  function ToSigned(u: Uint32): (v: int)
    ensures IsInt32(v) && v % UINT32_RANGE == u
  {
    if u < 0x8000_0000 then u else u - UINT32_RANGE
  }

  lemma SignedRoundTrip(v: int)
    requires IsInt32(v)
    ensures ToSigned(ToUnsigned(v)) == v
  {
  }

  /**
   * `add_32bit_int`: the value is packed with struct format '>i', which
   * rejects anything outside the signed 32-bit range (None); otherwise the
   * low word of its two's-complement pattern comes first.
   */
  function PackInt32(v: int): (r: Option<seq<Word>>)
    ensures r.Some? <==> IsInt32(v)
    ensures r.Some? ==> r.value == [v % UINT32_RANGE % WORD_RANGE, v % UINT32_RANGE / WORD_RANGE]
  {
    if IsInt32(v) then Some(Encode32(ToUnsigned(v))) else None
  }

  /** `add_32bit_float`: the bit pattern is split like any other 32-bit field. */
  function PackFloat32(f: Float32): (ws: seq<Word>)
    ensures ws == [f % WORD_RANGE, f / WORD_RANGE]
  {
    Encode32(f)
  }

  /** `decode_32bit_int`: two registers read as a signed 32-bit value. */
  function DecodeInt32(ws: seq<Word>): (v: int)
    requires |ws| == 2
    ensures IsInt32(v) && v % UINT32_RANGE == ws[0] + ws[1] * WORD_RANGE
  {
    ToSigned(Decode32(ws))
  }

  /** `decode_32bit_float`: two registers read as a float32 bit pattern. */
  function DecodeFloat32(ws: seq<Word>): (f: Float32)
    requires |ws| == 2
    ensures Encode32(f) == ws
  {
    Encode32Decode32(ws);
    Decode32(ws)
  }

  lemma Int32RoundTrip(v: int)
    requires IsInt32(v)
    ensures PackInt32(v).Some? && DecodeInt32(PackInt32(v).value) == v
  {
    SignedRoundTrip(v);
  }

  lemma Float32RoundTrip(f: Float32)
    ensures DecodeFloat32(PackFloat32(f)) == f
  {
    Decode32Encode32(f);
  }
}
