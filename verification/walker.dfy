/**
 * The stream walker: segment after segment until the end-of-stream probe
 * fails, decode the header, remember where the body ends, decode the
 * composition and its sprites when the segment is a PCS, and always resume at
 * the end of the declared body. It counts composition objects and, among
 * them, those whose flag byte equals the forced value.
 */
module Walker {
  import opened Format
  import opened Reader
  import opened Records

  /** The two counters the walker keeps. */
  datatype Counts = Counts(forced: nat, total: nat)

  function Add(a: Counts, b: Counts): Counts
  {
    Counts(a.forced + b.forced, a.total + b.total)
  }

  /**
   * A sprite is forced when its flag byte equals 0x40 exactly. This is not a
   * bit test: a forced flag has bit 6 set, but 0xC0, with the same bit set, is
   * not forced.
   */
  predicate IsForced(s: Sprite): (b: bool)
    ensures b ==> (s.flag / 0x40) % 2 == 1
    ensures s.flag == 0xC0 ==> !b
  {
    s.flag == FLAG_FORCED
  }

  /** The number of forced sprites in a list: never more than the list holds. */
  function ForcedCount(sprites: seq<Sprite>): (n: nat)
    ensures n <= |sprites|
  {
    if |sprites| == 0 then 0
    else
      var last := sprites[|sprites| - 1];
      ForcedCount(sprites[..|sprites| - 1]) + (if IsForced(last) then 1 else 0)
  }

  /**
   * Byte-level reference count: among the n consecutive sprite records laid
   * out from q, those whose flag byte (offset 3 of the record) equals 0x40.
   */
  function ForcedFlags(data: seq<uint8>, q: nat, n: nat): nat
    requires n == 0 || q + SPRITE_SIZE * n <= |data|
  {
    if n == 0 then 0
    else
      ForcedFlags(data, q, n - 1)
      + (if data[q + SPRITE_SIZE * (n - 1) + 3] == FLAG_FORCED then 1 else 0)
  }

  /**
   * Decodes n consecutive sprite records from p. Succeeds exactly when all
   * n * 16 bytes are there; the i-th sprite carries the flag byte of the
   * record at p + 16 * i, so the forced sprites are exactly the records whose
   * byte 3 is 0x40.
   */
  function ReadSprites(data: seq<uint8>, p: nat, n: nat): (r: Result<Decoded<seq<Sprite>>>)
    ensures r.Ok? <==> n == 0 || p + SPRITE_SIZE * n <= |data|
    ensures r.Ok? ==> r.value.next == p + SPRITE_SIZE * n && |r.value.value| == n
    ensures r.Ok? ==> ForcedCount(r.value.value) == ForcedFlags(data, p, n)
    ensures r.Ok? ==> forall i :: 0 <= i < n ==> r.value.value[i].flag == data[p + SPRITE_SIZE * i + 3]
    ensures r.Err? ==> r.error == Truncated
  {
    if n == 0 then Ok(Decoded([], p))
    else
      var prefix :- ReadSprites(data, p, n - 1);
      var s :- DecodeSprite(data, prefix.next);
      var sprites := prefix.value + [s.value];
      assert sprites[..n - 1] == prefix.value;
      Ok(Decoded(sprites, s.next))
  }

  /** What one iteration of the walker produced: the header, its counts and the resume point. */
  datatype StepOut = StepOut(seg: Segment, counts: Counts, next: nat)

  /**
   * One iteration of the walker from a segment header at p. Whatever the type
   * and however many bytes the composition decoding consumed, it resumes at
   * p + 13 + size. Only a PCS contributes to the counters.
   */
  function Step(data: seq<uint8>, p: nat): (r: Result<StepOut>)
    ensures DecodeSegment(data, p).Err? ==> r == Err(DecodeSegment(data, p).error)
    ensures r.Ok? <==>
              && DecodeSegment(data, p).Ok?
              && (data[p + 10] == PCS ==>
                    && p + HEADER_SIZE + COMPOSITION_SIZE <= |data|
                    && p + HEADER_SIZE + COMPOSITION_SIZE + SPRITE_SIZE * data[p + HEADER_SIZE + 10] <= |data|)
    ensures r.Ok? ==>
              && r.value.seg == DecodeSegment(data, p).value.value
              && r.value.next == p + HEADER_SIZE + r.value.seg.size
              && r.value.counts.forced <= r.value.counts.total
    ensures r.Ok? ==>
              if data[p + 10] == PCS
              then
                var count := data[p + HEADER_SIZE + 10];
                r.value.counts
                == Counts(ForcedFlags(data, p + HEADER_SIZE + COMPOSITION_SIZE, count), count)
              else r.value.counts == Counts(0, 0)
    ensures r.Err? && DecodeSegment(data, p).Ok? ==> r.error == Truncated
  {
    var header :- DecodeSegment(data, p);
    var next := header.next + header.value.size;
    if header.value.segType == PCS then
      var comp :- DecodeComposition(data, header.next);
      var sprites :- ReadSprites(data, comp.next, comp.value.spriteCount);
      var counts := Counts(ForcedCount(sprites.value), comp.value.spriteCount);
      Ok(StepOut(header.value, counts, next))
    else
      Ok(StepOut(header.value, Counts(0, 0), next))
  }

  /**
   * The walker from cursor p with counters acc. It stops cleanly when the
   * cursor is at or beyond the end of the data, including after a seek past
   * it; any failed decode aborts the whole walk.
   */
  function Walk(data: seq<uint8>, p: nat, acc: Counts): (r: Result<Counts>)
    decreases |data| - p
    ensures !More(data, p) ==> r == Ok(acc)
    ensures r.Ok? ==> acc.forced <= r.value.forced && acc.total <= r.value.total
    ensures r.Ok? ==> r.value.forced - acc.forced <= r.value.total - acc.total
  {
    if !More(data, p) then Ok(acc)
    else
      var s :- Step(data, p);
      Walk(data, s.next, Add(acc, s.counts))
  }

  /** The counts of a whole stream: forced never exceeds total. */
  function SupCountForced(data: seq<uint8>): (r: Result<Counts>)
    ensures r.Ok? ==> r.value.forced <= r.value.total
    ensures |data| == 0 ==> r == Ok(Counts(0, 0))
  {
    Walk(data, 0, Counts(0, 0))
  }

  /**
   * A stream whose first byte is not the first magic byte is malformed, the
   * error reported at offset 1, just after the byte that was read.
   */
  lemma BadFirstMagic(data: seq<uint8>)
    requires 0 < |data| && data[0] != 0x50
    ensures SupCountForced(data) == Err(Malformed(0x50, data[0], 1))
  {
  }

  /** A header of any other type: the step skips the body and counts nothing. */
  lemma StepOfHeader(data: seq<uint8>, p: nat, seg: Segment)
    requires DecodeSegment(data, p) == Ok(Decoded(seg, p + HEADER_SIZE)) && seg.segType != PCS
    ensures Step(data, p) == Ok(StepOut(seg, Counts(0, 0), p + HEADER_SIZE + seg.size))
  {
  }

  /**
   * A PCS header whose composition prefix and sprite records all fit: the
   * step counts the announced records and the forced flags among them.
   */
  lemma StepOfComposition(data: seq<uint8>, p: nat, seg: Segment, count: nat)
    requires DecodeSegment(data, p) == Ok(Decoded(seg, p + HEADER_SIZE)) && seg.segType == PCS
    requires p + HEADER_SIZE + COMPOSITION_SIZE <= |data| && count == data[p + HEADER_SIZE + 10]
    requires p + HEADER_SIZE + COMPOSITION_SIZE + SPRITE_SIZE * count <= |data|
    ensures Step(data, p)
            == Ok(StepOut(seg, Counts(ForcedFlags(data, p + HEADER_SIZE + COMPOSITION_SIZE, count), count),
                          p + HEADER_SIZE + seg.size))
  {
  }

  /**
   * A PCS whose prefix and announced records fit, but whose declared body runs
   * past the end of the data, is still counted: the step succeeds, the seek
   * lands at or past the end, and the walk stops cleanly with the PCS counted.
   */
  lemma CompositionPaddingCutAccepted(data: seq<uint8>, p: nat, acc: Counts)
    requires DecodeSegment(data, p).Ok? && data[p + 10] == PCS
    requires p + HEADER_SIZE + COMPOSITION_SIZE <= |data|
    requires p + HEADER_SIZE + COMPOSITION_SIZE + SPRITE_SIZE * data[p + HEADER_SIZE + 10] <= |data|
    requires |data| < p + HEADER_SIZE + DecodeSegment(data, p).value.value.size
    ensures Step(data, p).Ok?
    ensures Walk(data, p, acc)
            == Ok(Add(acc, Counts(ForcedFlags(data, p + HEADER_SIZE + COMPOSITION_SIZE, data[p + HEADER_SIZE + 10]),
                                  data[p + HEADER_SIZE + 10])))
  {
    var s := Step(data, p).value;
    WalkStep(data, p, acc, s);
  }

  /** One turn of the walker at a cursor before the end, given that turn's step. */
  lemma WalkStep(data: seq<uint8>, p: nat, acc: Counts, s: StepOut)
    requires More(data, p) && Step(data, p) == Ok(s)
    ensures Walk(data, p, acc) == Walk(data, s.next, Add(acc, s.counts))
  {
  }

  /** A failed turn of the walker ends the whole walk with that turn's error. */
  lemma WalkStepErr(data: seq<uint8>, p: nat, acc: Counts)
    requires More(data, p) && Step(data, p).Err?
    ensures Walk(data, p, acc) == Err(Step(data, p).error)
  {
  }

  /**
   * The inner loop over the sprite records of one PCS, decoding each in turn
   * and counting the forced ones; it fails as soon as a record is cut short.
   */
  method CountSprites(data: seq<uint8>, q0: nat, count: nat) returns (r: Result<nat>)
    ensures r.Ok? <==> count == 0 || q0 + SPRITE_SIZE * count <= |data|
    ensures r.Ok? ==> r.value == ForcedFlags(data, q0, count) <= count
    ensures r.Err? ==> r.error == Truncated
  {
    var forced: nat := 0;
    var q := q0;
    var k: nat := 0;
    while k < count
      invariant k <= count
      invariant q == q0 + SPRITE_SIZE * k
      invariant k > 0 ==> q <= |data|
      invariant forced == ForcedFlags(data, q0, k) <= k
    {
      var spr := DecodeSprite(data, q);
      if spr.Err? {
        assert q0 + SPRITE_SIZE * count >= q0 + SPRITE_SIZE * (k + 1) > |data|;
        return Err(spr.error);
      }
      if IsForced(spr.value.value) {
        forced := forced + 1;
      }
      q := spr.value.next;
      k := k + 1;
    }
    return Ok(forced);
  }

  /**
   * The body of the program's loop: decode the header, note where the body
   * ends, count the sprites of a PCS. It computes what Step defines.
   */
  method VisitSegment(data: seq<uint8>, pos: nat) returns (r: Result<StepOut>)
    ensures r == Step(data, pos)
  {
    var seg := DecodeSegment(data, pos);
    if seg.Err? {
      return Err(seg.error);
    }
    if seg.value.value.segType == PCS {
      r := VisitComposition(data, pos, seg.value.value);
      return;
    }
    StepOfHeader(data, pos, seg.value.value);
    return Ok(StepOut(seg.value.value, Counts(0, 0), seg.value.next + seg.value.value.size));
  }

  /** The PCS branch of the loop body: the composition prefix, then its sprite records. */
  method VisitComposition(data: seq<uint8>, pos: nat, seg: Segment) returns (r: Result<StepOut>)
    requires DecodeSegment(data, pos) == Ok(Decoded(seg, pos + HEADER_SIZE)) && seg.segType == PCS
    ensures r == Step(data, pos)
  {
    var next := pos + HEADER_SIZE + seg.size;
    var pcs := DecodeComposition(data, pos + HEADER_SIZE);
    if pcs.Err? {
      return Err(pcs.error);
    }
    var count := pcs.value.value.spriteCount;
    var forced := CountSprites(data, pcs.value.next, count);
    if forced.Err? {
      return Err(forced.error);
    }
    StepOfComposition(data, pos, seg, count);
    return Ok(StepOut(seg, Counts(forced.value, count), next));
  }

  /**
   * The counting loop as the program writes it: two counters, one visit per
   * segment while the end-of-stream probe succeeds, and a seek to the end of
   * every declared body. It computes exactly what SupCountForced defines.
   */
  method CountLoop(data: seq<uint8>) returns (r: Result<Counts>)
    ensures r == SupCountForced(data)
    ensures r.Ok? ==> r.value.forced <= r.value.total
  {
    var pos: nat := 0;
    var counts := Counts(0, 0);
    while More(data, pos)
      invariant counts.forced <= counts.total
      invariant Walk(data, pos, counts) == SupCountForced(data)
      decreases |data| - pos
    {
      var visit := VisitSegment(data, pos);
      if visit.Err? {
        return Err(visit.error);
      }
      counts := Add(counts, visit.value.counts);
      pos := visit.value.next;
    }
    return Ok(counts);
  }
}
