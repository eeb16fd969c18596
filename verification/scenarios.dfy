/**
 * Worked streams: one PCS carrying two sprite records followed by an END
 * segment, as a whole, cut short inside the END header, and with its first
 * magic byte corrupted.
 */
module Scenarios {
  import opened Format
  import opened Reader
  import opened Walker
  import opened Streams

  const FORCED_SPRITE: Sprite := Sprite(1, 0, FLAG_FORCED, 0, 0, 0, 0, 720, 64)

  /** A sprite record with flag byte `flag`, otherwise like FORCED_SPRITE. */
  function SpriteWithFlag(flag: uint8): Sprite
  {
    FORCED_SPRITE.(objId := 2, flag := flag)
  }

  /**
   * A 45-byte PCS body announcing two sprite records: the 11-byte prefix,
   * the forced sprite, a sprite with flag byte `second`, and two padding bytes.
   */
  function SceneBody(second: uint8): (body: seq<uint8>)
    ensures |body| == 45
  {
    EncodeComposition(Composition(1920, 1080, 0, STATE_EPOCH_START, PALETTE_UPDATE_NO, 0, 2), 0)
    + EncodeSprite(FORCED_SPRITE) + EncodeSprite(SpriteWithFlag(second)) + [0, 0]
  }

  function SceneUnits(second: uint8): seq<Unit>
  {
    [Unit(Segment(90000, PCS, 45), 0, SceneBody(second)), Unit(Segment(90000, END, 0), 0, [])]
  }

  /** The scene is a well-formed stream, and the bytes the walker reads from its PCS body. */
  lemma SceneBodyBytes(second: uint8)
    ensures AllWellFormed(SceneUnits(second))
    ensures SceneBody(second)[10] == 2
    ensures SceneBody(second)[COMPOSITION_SIZE + 3] == FLAG_FORCED
    ensures SceneBody(second)[COMPOSITION_SIZE + SPRITE_SIZE + 3] == second
  {
    var c := EncodeComposition(Composition(1920, 1080, 0, STATE_EPOCH_START, PALETTE_UPDATE_NO, 0, 2), 0);
    var a, b := EncodeSprite(FORCED_SPRITE), EncodeSprite(SpriteWithFlag(second));
    var body := SceneBody(second);
    assert body == c + a + b + [0, 0];
    assert body[10] == c[10] == 2;
    assert body[COMPOSITION_SIZE + 3] == a[3] == FLAG_FORCED;
    assert body[COMPOSITION_SIZE + SPRITE_SIZE + 3] == b[3] == second;
  }

  /**
   * The two-sprite scene counts two composition objects, of which the first
   * is forced and the second only when its flag byte is exactly 0x40: a
   * second flag of 0x00, or of 0xC0 with the same bit set, is not forced.
   */
  lemma TwoSpriteScene(second: uint8)
    ensures SupCountForced(EncodeStream(SceneUnits(second)))
            == Ok(Counts(if second == FLAG_FORCED then 2 else 1, 2))
  {
    SceneBodyBytes(second);
    SceneCounts(second);
    CountsOfEncodedStream(SceneUnits(second));
  }

  /** The reference counts of the scene. */
  lemma SceneCounts(second: uint8)
    requires AllWellFormed(SceneUnits(second))
    ensures StreamCounts(SceneUnits(second)) == Counts(if second == FLAG_FORCED then 2 else 1, 2)
  {
    var units := SceneUnits(second);
    assert WellFormed(units[0]) && WellFormed(units[1]);
    assert UnitCounts(units[0]) == Counts(if second == FLAG_FORCED then 2 else 1, 2) by {
      SceneBodyBytes(second);
      TwoFlags(SceneBody(second), COMPOSITION_SIZE);
    }
    PairCounts(units[0], units[1]);
  }

  /** The reference counts of a two-segment stream. */
  lemma PairCounts(a: Unit, b: Unit)
    requires WellFormed(a) && WellFormed(b)
    ensures AllWellFormed([a, b])
    ensures StreamCounts([a, b]) == Add(UnitCounts(a), UnitCounts(b))
  {
    assert [a, b][1..] == [b];
    StreamCountsCons([a, b]);
    SingleCounts([b]);
  }

  /** The reference counts of a one-segment stream. */
  lemma SingleCounts(units: seq<Unit>)
    requires |units| == 1 && AllWellFormed(units)
    ensures WellFormed(units[0])
    ensures StreamCounts(units) == UnitCounts(units[0])
  {
  }

  /** Counting the flag bytes of two consecutive sprite records. */
  lemma TwoFlags(data: seq<uint8>, q: nat)
    requires q + 2 * SPRITE_SIZE <= |data|
    ensures ForcedFlags(data, q, 2)
            == (if data[q + 3] == FLAG_FORCED then 1 else 0)
               + (if data[q + SPRITE_SIZE + 3] == FLAG_FORCED then 1 else 0)
  {
    assert ForcedFlags(data, q, 1) == if data[q + 3] == FLAG_FORCED then 1 else 0;
  }

  /** The scene cut five bytes before its end: the cut falls inside the END header. */
  lemma TwoSpriteSceneCut(second: uint8)
    ensures |EncodeStream(SceneUnits(second))| == 71
    ensures SupCountForced(EncodeStream(SceneUnits(second))[..66]) == Err(Truncated)
  {
    var units := SceneUnits(second);
    SceneBodyBytes(second);
    var e := EncodeUnit(units[0]);
    var h := EncodeHeader(units[1].seg, units[1].dts);
    assert EncodeStream(units[1..]) == h;
    assert EncodeStream(units) == e + h;
    assert EncodeStream(units)[..66] == EncodeStream(units[..1]) + h[..8];
    CutHeaderTruncated(EncodeStream(units)[..66], units[..1], units[1].seg, units[1].dts, 8);
  }

  /** The scene with its first magic byte replaced: malformed data, reported at offset 1. */
  lemma TwoSpriteSceneBadMagic(second: uint8)
    ensures SupCountForced(EncodeStream(SceneUnits(second))[0 := 0x51])
            == Err(Malformed(0x50, 0x51, 1))
  {
    SceneBodyBytes(second);
    var data := EncodeStream(SceneUnits(second))[0 := 0x51];
    assert |data| > 0 && data[0] == 0x51;
    BadFirstMagic(data);
  }
}
