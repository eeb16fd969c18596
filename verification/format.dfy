/**
 * The byte layout of a Presentation Graphics Stream (SUP/PGS), as far as the
 * forced-object counter reads it: fixed-width big-endian unsigned integers,
 * the three record types it decodes, the enumerated byte values, and writers
 * that lay each record out in bytes. The writers are not part of the counter;
 * they are the reference layout against which the decoders are proved.
 */
module Format {

  type uint8 = x: int | 0 <= x < 0x100
  type uint16 = x: int | 0 <= x < 0x1_0000
  type uint32 = x: int | 0 <= x < 0x1_0000_0000

  // Segment type tags. Any other tag value is legal and passes through unchanged.
  const PDS: uint8 := 0x14
  const ODS: uint8 := 0x15
  const PCS: uint8 := 0x16
  const WDS: uint8 := 0x17
  const END: uint8 := 0x80

  // Composition state and palette-update values (not validated when decoded).
  const STATE_NORMAL: uint8 := 0x00
  const STATE_ACQUISITION_POINT: uint8 := 0x40
  const STATE_EPOCH_START: uint8 := 0x80
  const PALETTE_UPDATE_NO: uint8 := 0x00
  const PALETTE_UPDATE_YES: uint8 := 0x80

  // Sprite flag values. Only a flag byte EQUAL to FLAG_FORCED marks a forced sprite.
  const FLAG_NULL: uint8 := 0x00
  const FLAG_FORCED: uint8 := 0x40

  /** The two bytes "PG" that open every segment header. */
  const MAGIC: seq<uint8> := [0x50, 0x47]

  const HEADER_SIZE: nat := 13
  const COMPOSITION_SIZE: nat := 11
  const SPRITE_SIZE: nat := 16

  /** A segment header; the decoding timestamp is read but not kept. */
  datatype Segment = Segment(time: uint32, segType: uint8, size: uint16)

  /** The fixed 11-byte prefix of a presentation composition segment body. */
  datatype Composition = Composition(
    width: uint16,
    height: uint16,
    compId: uint16,
    state: uint8,
    paletteUpdate: uint8,
    paletteId: uint8,
    spriteCount: uint8)

  /** One composition object record: always 16 bytes, the cropping fields included. */
  datatype Sprite = Sprite(
    objId: uint16,
    windowId: uint8,
    flag: uint8,
    targetH: uint16,
    targetV: uint16,
    sourceH: uint16,
    sourceV: uint16,
    width: uint16,
    height: uint16)

  /** The big-endian 16-bit value of the two bytes at offset i. */
  function U16At(data: seq<uint8>, i: nat): uint16
    requires i + 2 <= |data|
  {
    data[i] as int * 0x100 + data[i + 1] as int
  }

  /** The big-endian 32-bit value of the four bytes at offset i. */
  function U32At(data: seq<uint8>, i: nat): uint32
    requires i + 4 <= |data|
  {
    data[i] as int * 0x100_0000 + data[i + 1] as int * 0x1_0000
    + data[i + 2] as int * 0x100 + data[i + 3] as int
  }

  /** Big-endian layout of a 16-bit value. */
  function BeU2(v: uint16): (s: seq<uint8>)
    ensures |s| == 2 && U16At(s, 0) == v
  {
    [v / 0x100, v % 0x100]
  }

  /** Big-endian layout of a 32-bit value: the high half, then the low half. */
  function BeU4(v: uint32): (s: seq<uint8>)
    ensures |s| == 4 && U32At(s, 0) == v
  {
    var s := BeU2(v / 0x1_0000) + BeU2(v % 0x1_0000);
    U32AtHalves(s, 0);
    s
  }

  /** A 32-bit value is its high 16-bit half shifted left by 16, plus its low half. */
  lemma U32AtHalves(data: seq<uint8>, i: nat)
    requires i + 4 <= |data|
    ensures U32At(data, i) == U16At(data, i) * 0x1_0000 + U16At(data, i + 2)
  {
  }

  /** Splitting hi * 2^16 + lo at 2^16 gives back the two halves. */
  lemma DivModHalves(hi: uint16, lo: uint16)
    ensures (hi * 0x1_0000 + lo) / 0x1_0000 == hi
    ensures (hi * 0x1_0000 + lo) % 0x1_0000 == lo
  {
  }

  /** Reading two bytes big-endian and laying the value out again gives back the bytes. */
  lemma BeU2OfU16At(data: seq<uint8>, i: nat)
    requires i + 2 <= |data|
    ensures BeU2(U16At(data, i)) == data[i..i + 2]
  {
  }

  /** Reading four bytes big-endian and laying the value out again gives back the bytes. */
  lemma BeU4OfU32At(data: seq<uint8>, i: nat)
    requires i + 4 <= |data|
    ensures BeU4(U32At(data, i)) == data[i..i + 4]
  {
    U32AtHalves(data, i);
    DivModHalves(U16At(data, i), U16At(data, i + 2));
    BeU2OfU16At(data, i);
    BeU2OfU16At(data, i + 2);
    assert data[i..i + 4] == data[i..i + 2] + data[i + 2..i + 4];
  }

  /** Layout of a segment header whose decoding timestamp is dts. */
  function EncodeHeader(seg: Segment, dts: uint32): (s: seq<uint8>)
    ensures |s| == HEADER_SIZE
  {
    MAGIC + BeU4(seg.time) + BeU4(dts) + [seg.segType] + BeU2(seg.size)
  }

  /** Layout of a composition prefix whose reserved byte is `reserved`. */
  function EncodeComposition(c: Composition, reserved: uint8): (s: seq<uint8>)
    ensures |s| == COMPOSITION_SIZE
  {
    BeU2(c.width) + BeU2(c.height) + [reserved] + BeU2(c.compId)
    + [c.state, c.paletteUpdate, c.paletteId, c.spriteCount]
  }

  /** Layout of a sprite record. */
  function EncodeSprite(s: Sprite): (r: seq<uint8>)
    ensures |r| == SPRITE_SIZE
  {
    BeU2(s.objId) + [s.windowId, s.flag]
    + BeU2(s.targetH) + BeU2(s.targetV) + BeU2(s.sourceH) + BeU2(s.sourceV)
    + BeU2(s.width) + BeU2(s.height)
  }
}
