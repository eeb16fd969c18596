/**
 * The three record decoders. Each is a fixed, position-dependent sequence of
 * reads through the byte reader; tag, state, palette-update and flag bytes
 * are kept verbatim, never checked against the enumerated values.
 */
module Records {
  import opened Format
  import opened Reader

  /**
   * The 13-byte segment header: the magic "PG", the presentation timestamp,
   * the decoding timestamp (read and dropped), the type tag and the body size.
   */
  function DecodeSegment(data: seq<uint8>, p: nat): (r: Result<Decoded<Segment>>)
    ensures r.Ok? <==> p + HEADER_SIZE <= |data| && data[p] == 0x50 && data[p + 1] == 0x47
    ensures r.Ok? ==>
              && r.value.next == p + HEADER_SIZE
              && r.value.value == Segment(U32At(data, p + 2), data[p + 10], U16At(data, p + 11))
    ensures p < |data| && data[p] != 0x50 ==> r == Err(Malformed(0x50, data[p], p + 1))
    ensures p + 1 < |data| && data[p] == 0x50 && data[p + 1] != 0x47 ==>
              r == Err(Malformed(0x47, data[p + 1], p + 2))
    ensures r.Err? && r.error.Truncated? <==>
              && |data| < p + HEADER_SIZE
              && (p < |data| ==> data[p] == 0x50)
              && (p + 1 < |data| ==> data[p + 1] == 0x47)
  {
    ExpectMagicCases(data, p);
    var m :- Expect(data, p, MAGIC);
    var time :- ReadU4(data, m);
    var dts :- ReadU4(data, time.next);
    var tag :- ReadU1(data, dts.next);
    var size :- ReadU2(data, tag.next);
    var seg := Segment(time.value, tag.value, size.value);
    Ok(Decoded(seg, size.next))
  }

  /**
   * The fixed 11-byte prefix of a composition body: width, height, one
   * reserved byte, composition id, state, palette-update flag, palette id and
   * the number of sprite records that follow.
   */
  function DecodeComposition(data: seq<uint8>, p: nat): (r: Result<Decoded<Composition>>)
    ensures r.Ok? <==> p + COMPOSITION_SIZE <= |data|
    ensures r.Ok? ==>
              && r.value.next == p + COMPOSITION_SIZE
              && r.value.value.spriteCount == data[p + 10]
    ensures r.Err? ==> r.error == Truncated
  {
    var width :- ReadU2(data, p);
    var height :- ReadU2(data, width.next);
    var reserved :- ReadU1(data, height.next);
    var compId :- ReadU2(data, reserved.next);
    var state :- ReadU1(data, compId.next);
    var paletteUpdate :- ReadU1(data, state.next);
    var paletteId :- ReadU1(data, paletteUpdate.next);
    var count :- ReadU1(data, paletteId.next);
    var c := Composition(width.value, height.value, compId.value, state.value,
                         paletteUpdate.value, paletteId.value, count.value);
    Ok(Decoded(c, count.next))
  }

  /**
   * One sprite record: object id, window id, flag byte, then the target
   * position, source position and size pairs, 16 bytes in all.
   */
  function DecodeSprite(data: seq<uint8>, p: nat): (r: Result<Decoded<Sprite>>)
    ensures r.Ok? <==> p + SPRITE_SIZE <= |data|
    ensures r.Ok? ==>
              && r.value.next == p + SPRITE_SIZE
              && r.value.value.flag == data[p + 3]
    ensures r.Err? ==> r.error == Truncated
  {
    var objId :- ReadU2(data, p);
    var windowId :- ReadU1(data, objId.next);
    var flag :- ReadU1(data, windowId.next);
    var targetH :- ReadU2(data, flag.next);
    var targetV :- ReadU2(data, targetH.next);
    var sourceH :- ReadU2(data, targetV.next);
    var sourceV :- ReadU2(data, sourceH.next);
    var width :- ReadU2(data, sourceV.next);
    var height :- ReadU2(data, width.next);
    var s := Sprite(objId.value, windowId.value, flag.value, targetH.value, targetV.value,
                    sourceH.value, sourceV.value, width.value, height.value);
    Ok(Decoded(s, height.next))
  }

  /** A header layout determines the segment and the dropped timestamp. */
  lemma EncodeHeaderInjective(a: Segment, da: uint32, b: Segment, db: uint32)
    requires EncodeHeader(a, da) == EncodeHeader(b, db)
    ensures a == b && da == db
  {
    var x, y := EncodeHeader(a, da), EncodeHeader(b, db);
    assert x == (MAGIC + BeU4(a.time) + BeU4(da) + [a.segType]) + BeU2(a.size);
    assert y == (MAGIC + BeU4(b.time) + BeU4(db) + [b.segType]) + BeU2(b.size);
    assert BeU4(a.time) == x[2..6] == y[2..6] == BeU4(b.time);
    assert BeU4(da) == x[6..10] == y[6..10] == BeU4(db);
    assert BeU2(a.size) == x[11..13] == y[11..13] == BeU2(b.size);
    assert a.segType == x[10] == y[10] == b.segType;
  }

  /** A composition layout determines the composition and its reserved byte. */
  lemma EncodeCompositionInjective(a: Composition, ra: uint8, b: Composition, rb: uint8)
    requires EncodeComposition(a, ra) == EncodeComposition(b, rb)
    ensures a == b && ra == rb
  {
    var x, y := EncodeComposition(a, ra), EncodeComposition(b, rb);
    assert BeU2(a.width) == x[0..2] == y[0..2] == BeU2(b.width);
    assert BeU2(a.height) == x[2..4] == y[2..4] == BeU2(b.height);
    assert BeU2(a.compId) == x[5..7] == y[5..7] == BeU2(b.compId);
    assert ra == x[4] == y[4] == rb;
    assert a.state == x[7] == y[7] == b.state;
    assert a.paletteUpdate == x[8] == y[8] == b.paletteUpdate;
    assert a.paletteId == x[9] == y[9] == b.paletteId;
    assert a.spriteCount == x[10] == y[10] == b.spriteCount;
  }

  /** A sprite layout determines the sprite. */
  lemma EncodeSpriteInjective(a: Sprite, b: Sprite)
    requires EncodeSprite(a) == EncodeSprite(b)
    ensures a == b
  {
    var x, y := EncodeSprite(a), EncodeSprite(b);
    assert BeU2(a.objId) == x[0..2] == y[0..2] == BeU2(b.objId);
    assert a.windowId == x[2] == y[2] == b.windowId;
    assert a.flag == x[3] == y[3] == b.flag;
    assert BeU2(a.targetH) == x[4..6] == y[4..6] == BeU2(b.targetH);
    assert BeU2(a.targetV) == x[6..8] == y[6..8] == BeU2(b.targetV);
    assert BeU2(a.sourceH) == x[8..10] == y[8..10] == BeU2(b.sourceH);
    assert BeU2(a.sourceV) == x[10..12] == y[10..12] == BeU2(b.sourceV);
    assert BeU2(a.width) == x[12..14] == y[12..14] == BeU2(b.width);
    assert BeU2(a.height) == x[14..16] == y[14..16] == BeU2(b.height);
  }

  /** Round trip: a header laid out at the cursor decodes to that header, 13 bytes on. */
  lemma DecodeEncodedSegment(data: seq<uint8>, p: nat, seg: Segment, dts: uint32)
    requires p + HEADER_SIZE <= |data| && data[p..p + HEADER_SIZE] == EncodeHeader(seg, dts)
    ensures DecodeSegment(data, p) == Ok(Decoded(seg, p + HEADER_SIZE))
  {
    assert data[p] == EncodeHeader(seg, dts)[0] == 0x50;
    assert data[p + 1] == EncodeHeader(seg, dts)[1] == 0x47;
    SegmentLayout(data, p);
    EncodeHeaderInjective(DecodeSegment(data, p).value.value, U32At(data, p + 6), seg, dts);
  }

  /** Round trip: a composition laid out at the cursor decodes to it, 11 bytes on. */
  lemma DecodeEncodedComposition(data: seq<uint8>, p: nat, c: Composition, reserved: uint8)
    requires p + COMPOSITION_SIZE <= |data|
    requires data[p..p + COMPOSITION_SIZE] == EncodeComposition(c, reserved)
    ensures DecodeComposition(data, p) == Ok(Decoded(c, p + COMPOSITION_SIZE))
  {
    CompositionLayout(data, p);
    EncodeCompositionInjective(DecodeComposition(data, p).value.value, data[p + 4], c, reserved);
  }

  /** Round trip: a sprite laid out at the cursor decodes to it, 16 bytes on. */
  lemma DecodeEncodedSprite(data: seq<uint8>, p: nat, s: Sprite)
    requires p + SPRITE_SIZE <= |data| && data[p..p + SPRITE_SIZE] == EncodeSprite(s)
    ensures DecodeSprite(data, p) == Ok(Decoded(s, p + SPRITE_SIZE))
  {
    SpriteLayout(data, p);
    EncodeSpriteInjective(DecodeSprite(data, p).value.value, s);
  }

  /** Decoding then laying out again gives back the 13 header bytes. */
  lemma SegmentLayout(data: seq<uint8>, p: nat)
    requires DecodeSegment(data, p).Ok?
    ensures data[p..p + HEADER_SIZE]
            == EncodeHeader(DecodeSegment(data, p).value.value, U32At(data, p + 6))
  {
    BeU4OfU32At(data, p + 2);
    BeU4OfU32At(data, p + 6);
    BeU2OfU16At(data, p + 11);
    assert data[p..p + HEADER_SIZE] ==
           data[p..p + 2] + data[p + 2..p + 6] + data[p + 6..p + 10] + data[p + 10..p + 11]
           + data[p + 11..p + 13];
  }

  /** Decoding then laying out again gives back the 11 composition bytes. */
  lemma CompositionLayout(data: seq<uint8>, p: nat)
    requires DecodeComposition(data, p).Ok?
    ensures data[p..p + COMPOSITION_SIZE]
            == EncodeComposition(DecodeComposition(data, p).value.value, data[p + 4])
  {
    BeU2OfU16At(data, p);
    BeU2OfU16At(data, p + 2);
    BeU2OfU16At(data, p + 5);
    assert data[p..p + COMPOSITION_SIZE] ==
           data[p..p + 2] + data[p + 2..p + 4] + data[p + 4..p + 5] + data[p + 5..p + 7]
           + data[p + 7..p + 8] + data[p + 8..p + 9] + data[p + 9..p + 10] + data[p + 10..p + 11];
  }

  /** Decoding then laying out again gives back the 16 sprite bytes. */
  lemma SpriteLayout(data: seq<uint8>, p: nat)
    requires DecodeSprite(data, p).Ok?
    ensures data[p..p + SPRITE_SIZE] == EncodeSprite(DecodeSprite(data, p).value.value)
  {
    BeU2OfU16At(data, p);
    BeU2OfU16At(data, p + 4);
    BeU2OfU16At(data, p + 6);
    BeU2OfU16At(data, p + 8);
    BeU2OfU16At(data, p + 10);
    BeU2OfU16At(data, p + 12);
    BeU2OfU16At(data, p + 14);
    assert data[p..p + SPRITE_SIZE] ==
           data[p..p + 2] + data[p + 2..p + 3] + data[p + 3..p + 4] + data[p + 4..p + 6]
           + data[p + 6..p + 8] + data[p + 8..p + 10] + data[p + 10..p + 12]
           + data[p + 12..p + 14] + data[p + 14..p + 16];
  }
}
