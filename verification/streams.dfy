/**
 * A reference model of a whole stream: a list of framed segments, each a
 * header plus exactly `size` body bytes, laid out one after another. The
 * walker's result on such a stream is proved equal to a fold over the list
 * that reads each PCS body directly: its sprite count at body offset 10 and
 * the flag byte at offset 3 of every 16-byte record after the 11-byte prefix.
 */
module Streams {
  import opened Format
  import opened Reader
  import opened Records
  import opened Walker

  /** One framed segment as a writer lays it out. */
  datatype Unit = Unit(seg: Segment, dts: uint32, body: seq<uint8>)

  /**
   * The body is exactly as long as the header declares, and a PCS body holds
   * its prefix and every sprite record it announces. Trailing padding is allowed.
   */
  predicate WellFormed(u: Unit)
  {
    && |u.body| == u.seg.size
    && (u.seg.segType == PCS ==>
          && COMPOSITION_SIZE <= |u.body|
          && COMPOSITION_SIZE + SPRITE_SIZE * u.body[10] <= |u.body|)
  }

  predicate AllWellFormed(units: seq<Unit>)
  {
    forall i :: 0 <= i < |units| ==> WellFormed(units[i])
  }

  function EncodeUnit(u: Unit): (s: seq<uint8>)
    ensures |s| == HEADER_SIZE + |u.body|
  {
    EncodeHeader(u.seg, u.dts) + u.body
  }

  function EncodeStream(units: seq<Unit>): seq<uint8>
  {
    if |units| == 0 then [] else EncodeUnit(units[0]) + EncodeStream(units[1..])
  }

  /** What one segment contributes, read straight from its body bytes. */
  function UnitCounts(u: Unit): Counts
    requires WellFormed(u)
  {
    if u.seg.segType == PCS
    then Counts(ForcedFlags(u.body, COMPOSITION_SIZE, u.body[10]), u.body[10])
    else Counts(0, 0)
  }

  /**
   * The reference counts of a stream: over its PCS segments, the sum of the
   * sprite counts and the sum of the forced flag bytes; other segments add nothing.
   */
  function StreamCounts(units: seq<Unit>): Counts
    requires AllWellFormed(units)
    decreases |units|
  {
    if |units| == 0 then Counts(0, 0)
    else Add(UnitCounts(units[0]), StreamCounts(units[1..]))
  }

  /** Counting flag bytes depends only on the bytes counted, wherever they sit. */
  lemma {:induction false} ForcedFlagsShift(data: seq<uint8>, off: nat, body: seq<uint8>, q: nat, n: nat)
    requires off + |body| <= |data| && data[off..off + |body|] == body
    requires q + SPRITE_SIZE * n <= |body|
    ensures ForcedFlags(data, off + q, n) == ForcedFlags(body, q, n)
  {
    if n > 0 {
      ForcedFlagsShift(data, off, body, q, n - 1);
      var k := q + SPRITE_SIZE * (n - 1) + 3;
      assert data[off + k] == data[off..off + |body|][k] == body[k];
    }
  }

  /** A segment laid out at p: its header bytes, then its body bytes. */
  lemma UnitParts(data: seq<uint8>, p: nat, u: Unit)
    requires p + |EncodeUnit(u)| <= |data| && data[p..p + |EncodeUnit(u)|] == EncodeUnit(u)
    ensures data[p..p + HEADER_SIZE] == EncodeHeader(u.seg, u.dts)
    ensures data[p + HEADER_SIZE..p + HEADER_SIZE + |u.body|] == u.body
  {
    var h := EncodeHeader(u.seg, u.dts);
    var n := |EncodeUnit(u)|;
    assert data[p..p + HEADER_SIZE] == data[p..p + n][..HEADER_SIZE] == h;
    assert data[p + HEADER_SIZE..p + n] == data[p..p + n][HEADER_SIZE..] == u.body;
  }

  /** The sprite count and the forced flags of a PCS body, read where the body sits in the stream. */
  lemma CompositionBodyAt(data: seq<uint8>, b: nat, u: Unit)
    requires WellFormed(u) && u.seg.segType == PCS
    requires b + |u.body| <= |data| && data[b..b + |u.body|] == u.body
    ensures b + COMPOSITION_SIZE + SPRITE_SIZE * u.body[10] <= |data|
    ensures data[b + 10] == u.body[10]
    ensures ForcedFlags(data, b + COMPOSITION_SIZE, u.body[10])
            == ForcedFlags(u.body, COMPOSITION_SIZE, u.body[10])
  {
    assert data[b + 10] == data[b..b + |u.body|][10];
    ForcedFlagsShift(data, b, u.body, COMPOSITION_SIZE, u.body[10]);
  }

  /**
   * What the walker sees of u at p: the header decodes to u's, and for a PCS
   * the sprite records fit and the count byte and flag bytes are u's.
   */
  predicate SeenAt(data: seq<uint8>, p: nat, u: Unit)
    requires WellFormed(u)
  {
    var b := p + HEADER_SIZE;
    && DecodeSegment(data, p) == Ok(Decoded(u.seg, b))
    && (u.seg.segType == PCS ==>
          && b + COMPOSITION_SIZE + SPRITE_SIZE * u.body[10] <= |data|
          && data[b + 10] == u.body[10]
          && ForcedFlags(data, b + COMPOSITION_SIZE, u.body[10])
             == ForcedFlags(u.body, COMPOSITION_SIZE, u.body[10]))
  }

  /** A well-formed segment laid out at p is seen as itself. */
  lemma UnitAt(data: seq<uint8>, p: nat, u: Unit)
    requires WellFormed(u)
    requires p + |EncodeUnit(u)| <= |data| && data[p..p + |EncodeUnit(u)|] == EncodeUnit(u)
    ensures SeenAt(data, p, u)
  {
    UnitParts(data, p, u);
    DecodeEncodedSegment(data, p, u.seg, u.dts);
    if u.seg.segType == PCS {
      CompositionBodyAt(data, p + HEADER_SIZE, u);
    }
  }

  /** A segment seen at p: one walker step yields its reference counts. */
  lemma StepOverUnit(data: seq<uint8>, p: nat, u: Unit)
    requires WellFormed(u) && SeenAt(data, p, u)
    ensures Step(data, p) == Ok(StepOut(u.seg, UnitCounts(u), p + HEADER_SIZE + u.seg.size))
  {
    if u.seg.segType == PCS {
      StepOfComposition(data, p, u.seg, u.body[10]);
    } else {
      StepOfHeader(data, p, u.seg);
    }
  }

  /** The first segment and the rest of a well-formed list are well formed. */
  lemma WellFormedCons(units: seq<Unit>)
    requires |units| > 0 && AllWellFormed(units)
    ensures WellFormed(units[0]) && AllWellFormed(units[1..])
  {
    forall i | 0 <= i < |units[1..]|
      ensures WellFormed(units[1..][i])
    {
      assert units[1..][i] == units[i + 1];
    }
  }

  /** The reference counts of a stream are those of its first segment plus those of the rest. */
  lemma StreamCountsCons(units: seq<Unit>)
    requires |units| > 0 && AllWellFormed(units)
    ensures WellFormed(units[0]) && AllWellFormed(units[1..])
    ensures StreamCounts(units) == Add(UnitCounts(units[0]), StreamCounts(units[1..]))
  {
    WellFormedCons(units);
  }

  /** The stream split after its first segment. */
  lemma StreamCons(data: seq<uint8>, prefix: seq<uint8>, units: seq<Unit>, suffix: seq<uint8>)
    requires |units| > 0 && AllWellFormed(units)
    requires data == prefix + EncodeStream(units) + suffix
    ensures WellFormed(units[0]) && AllWellFormed(units[1..])
    ensures data == (prefix + EncodeUnit(units[0])) + EncodeStream(units[1..]) + suffix
    ensures |prefix| + |EncodeUnit(units[0])| <= |data|
    ensures data[|prefix|..|prefix| + |EncodeUnit(units[0])|] == EncodeUnit(units[0])
  {
    var e, rest := EncodeUnit(units[0]), EncodeStream(units[1..]);
    assert EncodeStream(units) == e + rest;
    assert data == (prefix + e) + rest + suffix;
    assert data == prefix + (e + (rest + suffix));
    PieceAt(data, prefix, e, rest + suffix);
    WellFormedCons(units);
  }

  /**
   * Walking over a run of well-formed segments laid out from p lands at the
   * end of the run with the reference counts added, whatever follows it.
   */
  lemma {:induction false} WalkOverUnits(
    data: seq<uint8>, prefix: seq<uint8>, units: seq<Unit>, suffix: seq<uint8>,
    p: nat, end: nat, acc: Counts)
    requires AllWellFormed(units)
    requires data == prefix + EncodeStream(units) + suffix
    requires p == |prefix| && end == p + |EncodeStream(units)|
    ensures Walk(data, p, acc) == Walk(data, end, Add(acc, StreamCounts(units)))
    decreases |units|
  {
    if |units| == 0 {
      assert Add(acc, StreamCounts(units)) == acc;
    } else {
      var u := units[0];
      StreamCons(data, prefix, units, suffix);
      UnitAt(data, p, u);
      StepOverUnit(data, p, u);
      var next := p + HEADER_SIZE + u.seg.size;
      var acc' := Add(acc, UnitCounts(u));
      WalkStep(data, p, acc, StepOut(u.seg, UnitCounts(u), next));
      WalkOverUnits(data, prefix + EncodeUnit(u), units[1..], suffix, next, end, acc');
      assert Add(acc', StreamCounts(units[1..])) == Add(acc, StreamCounts(units));
    }
  }

  /** The walker's counts on a well-formed stream are the reference fold over its segments. */
  lemma CountsOfEncodedStream(units: seq<Unit>)
    requires AllWellFormed(units)
    ensures SupCountForced(EncodeStream(units)) == Ok(StreamCounts(units))
  {
    var data := EncodeStream(units);
    assert data == [] + EncodeStream(units) + [];
    WalkOverUnits(data, [], units, [], 0, |data|, Counts(0, 0));
    assert Add(Counts(0, 0), StreamCounts(units)) == StreamCounts(units);
  }

  /** Every segment of the stream is of a type other than PCS. */
  predicate NoCompositions(units: seq<Unit>)
  {
    forall i :: 0 <= i < |units| ==> units[i].seg.segType != PCS
  }

  /** Without PCS segments both reference counters stay at zero. */
  lemma {:induction false} NoCompositionsCountNothing(units: seq<Unit>)
    requires AllWellFormed(units) && NoCompositions(units)
    ensures StreamCounts(units) == Counts(0, 0)
    decreases |units|
  {
    if |units| > 0 {
      assert units[0].seg.segType != PCS;
      WellFormedCons(units);
      assert NoCompositions(units[1..]) by {
        forall i | 0 <= i < |units[1..]|
          ensures units[1..][i].seg.segType != PCS
        {
          assert units[1..][i] == units[i + 1];
        }
      }
      NoCompositionsCountNothing(units[1..]);
    }
  }

  /** A stream without PCS segments counts zero forced objects out of zero. */
  lemma NoCompositionsStream(units: seq<Unit>)
    requires AllWellFormed(units) && NoCompositions(units)
    ensures SupCountForced(EncodeStream(units)) == Ok(Counts(0, 0))
  {
    CountsOfEncodedStream(units);
    NoCompositionsCountNothing(units);
  }

  /**
   * Whatever follows a well-formed stream, the walker reaches its end with the
   * stream's reference counts and carries on from there.
   */
  lemma StreamThen(data: seq<uint8>, units: seq<Unit>, tail: seq<uint8>)
    requires AllWellFormed(units) && data == EncodeStream(units) + tail
    ensures SupCountForced(data) == Walk(data, |EncodeStream(units)|, StreamCounts(units))
  {
    WalkOverUnits(data, [], units, tail, 0, |EncodeStream(units)|, Counts(0, 0));
    assert Add(Counts(0, 0), StreamCounts(units)) == StreamCounts(units);
  }

  /**
   * A stream whose last segment is not a PCS and whose body is cut short is
   * still accepted: the walker seeks past the end and stops cleanly, and the
   * counts are those of the complete segments before it.
   */
  lemma ShortFinalBodyAccepted(
    data: seq<uint8>, units: seq<Unit>, seg: Segment, dts: uint32, partial: seq<uint8>)
    requires AllWellFormed(units) && seg.segType != PCS && |partial| <= seg.size
    requires data == EncodeStream(units) + (EncodeHeader(seg, dts) + partial)
    ensures SupCountForced(data) == Ok(StreamCounts(units))
  {
    var p := |EncodeStream(units)|;
    StreamThen(data, units, EncodeHeader(seg, dts) + partial);
    PieceAt(data, EncodeStream(units), EncodeHeader(seg, dts), partial);
    DecodeEncodedSegment(data, p, seg, dts);
    StepOfHeader(data, p, seg);
    WalkStep(data, p, StreamCounts(units), StepOut(seg, Counts(0, 0), p + HEADER_SIZE + seg.size));
    assert Add(StreamCounts(units), Counts(0, 0)) == StreamCounts(units);
  }

  /** A header cut after its first k bytes decodes as a truncation. */
  lemma CutHeaderAt(data: seq<uint8>, p: nat, seg: Segment, dts: uint32, k: nat)
    requires 0 < k < HEADER_SIZE && p + k == |data|
    requires data[p..] == EncodeHeader(seg, dts)[..k]
    ensures DecodeSegment(data, p) == Err(Truncated)
  {
    assert data[p] == data[p..][0] == 0x50;
    if 1 < k {
      assert data[p + 1] == data[p..][1] == 0x47;
    }
  }

  /** A stream that ends inside a segment header fails as truncated. */
  lemma CutHeaderTruncated(data: seq<uint8>, units: seq<Unit>, seg: Segment, dts: uint32, k: nat)
    requires AllWellFormed(units) && 0 < k < HEADER_SIZE
    requires data == EncodeStream(units) + EncodeHeader(seg, dts)[..k]
    ensures SupCountForced(data) == Err(Truncated)
  {
    var s, t := EncodeStream(units), EncodeHeader(seg, dts)[..k];
    StreamThen(data, units, t);
    SuffixAt(data, s, t);
    CutHeaderAt(data, |s|, seg, dts, k);
    WalkStepErr(data, |s|, StreamCounts(units));
  }

  /**
   * A segment that does not open with the magic byte 0x50 stops the walk with
   * a malformed-data error whose offset is the position just after that byte.
   */
  lemma BadMagicAfterStream(data: seq<uint8>, units: seq<Unit>, b: uint8, rest: seq<uint8>)
    requires AllWellFormed(units) && b != 0x50
    requires data == EncodeStream(units) + ([b] + rest)
    ensures SupCountForced(data) == Err(Malformed(0x50, b, |EncodeStream(units)| + 1))
  {
    var s := EncodeStream(units);
    StreamThen(data, units, [b] + rest);
    PieceAt(data, s, [b], rest);
    assert data[|s|] == data[|s|..|s| + 1][0] == b;
    WalkStepErr(data, |s|, StreamCounts(units));
  }

  /** The middle piece of s + (mid + rest) sits right after s. */
  lemma PieceAt<T>(data: seq<T>, s: seq<T>, mid: seq<T>, rest: seq<T>)
    requires data == s + (mid + rest)
    ensures data[|s|..|s| + |mid|] == mid
  {
  }

  /** The tail of s + t after s is t. */
  lemma SuffixAt<T>(data: seq<T>, s: seq<T>, t: seq<T>)
    requires data == s + t
    ensures data[|s|..] == t
  {
  }
}
