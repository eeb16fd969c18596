/**
 * The byte reader: error-checked big-endian reads from an immutable byte
 * sequence at a cursor. The cursor is any natural number; it may lie beyond
 * the end of the data after a seek, and every read from there fails as a
 * truncation. Each read returns the decoded value with the advanced cursor.
 */
module Reader {
  import opened Format

  /** The two ways a decode fails on in-memory data. */
  datatype Error =
    | Truncated
      // A byte other than the expected one; offset is the cursor after that byte was read.
    | Malformed(expected: uint8, actual: uint8, offset: nat)

  datatype Result<+T> = Ok(value: T) | Err(error: Error) {
    predicate IsFailure() {
      Err?
    }

    function PropagateFailure<U>(): Result<U>
      requires Err?
    {
      Err(error)
    }

    function Extract(): T
      requires Ok?
    {
      value
    }
  }

  /** A decoded value and the cursor just past the bytes it was decoded from. */
  datatype Decoded<+T> = Decoded(value: T, next: nat)

  /** One byte; fails exactly when the cursor is at or past the end. */
  function ReadU1(data: seq<uint8>, p: nat): (r: Result<Decoded<uint8>>)
    ensures r.Ok? <==> p < |data|
    ensures r.Ok? ==> r.value == Decoded(data[p], p + 1)
    ensures r.Err? ==> r.error == Truncated
  {
    if p < |data| then Ok(Decoded(data[p], p + 1)) else Err(Truncated)
  }

  /** A big-endian 16-bit value built from two single-byte reads. */
  function ReadU2(data: seq<uint8>, p: nat): (r: Result<Decoded<uint16>>)
    ensures r.Ok? <==> p + 2 <= |data|
    ensures r.Ok? ==> r.value.next == p + 2 && r.value.value == U16At(data, p)
    ensures r.Err? ==> r.error == Truncated
  {
    var hi :- ReadU1(data, p);
    var lo :- ReadU1(data, hi.next);
    Ok(Decoded(hi.value * 0x100 + lo.value, lo.next))
  }

  /** A big-endian 32-bit value built from two 16-bit reads. */
  function ReadU4(data: seq<uint8>, p: nat): (r: Result<Decoded<uint32>>)
    ensures r.Ok? <==> p + 4 <= |data|
    ensures r.Ok? ==> r.value.next == p + 4 && r.value.value == U32At(data, p)
    ensures r.Ok? ==> r.value.value == U16At(data, p) * 0x1_0000 + U16At(data, p + 2)
    ensures r.Err? ==> r.error == Truncated
  {
    var hi :- ReadU2(data, p);
    var lo :- ReadU2(data, hi.next);
    Ok(Decoded(hi.value * 0x1_0000 + lo.value, lo.next))
  }

  /**
   * Reads bytes one at a time and compares each with the next expected byte.
   * Succeeds with the cursor past them exactly when they all appear; the
   * first differing byte is a Malformed error, running out first a Truncated one.
   */
  function Expect(data: seq<uint8>, p: nat, bytes: seq<uint8>): (r: Result<nat>)
    decreases |bytes|
    ensures r.Ok? <==> BytesAt(data, p, bytes)
    ensures r.Ok? ==> r.value == p + |bytes|
    ensures r.Err? && r.error.Malformed? ==>
              var o := r.error.offset;
              && p < o <= p + |bytes| && o <= |data|
              && r.error.actual == data[o - 1] && r.error.expected == bytes[o - 1 - p]
              && r.error.actual != r.error.expected
              && BytesAt(data, p, bytes[..o - 1 - p])
    ensures r.Err? && r.error.Truncated? ==>
              && |data| < p + |bytes|
              && (p <= |data| ==> BytesAt(data, p, bytes[..|data| - p]))
  {
    if |bytes| == 0 then Ok(p)
    else
      var b := bytes[0];
      var c := ReadU1(data, p);
      if c.Err? then Err(c.error)
      else if c.value.value != b then Err(Malformed(b, c.value.value, c.value.next))
      else
        BytesAtCons(data, p, bytes);
        var r := Expect(data, p + 1, bytes[1..]);
        if r.Err? && r.error.Malformed? then
          BytesAtPrefixCons(data, p, bytes, r.error.offset - 2 - p);
          r
        else if r.Err? then
          BytesAtPrefixCons(data, p, bytes, |data| - p - 1);
          r
        else r
  }

  /** The bytes at the cursor are exactly `bytes` (trivially so when `bytes` is empty). */
  predicate BytesAt(data: seq<uint8>, p: nat, bytes: seq<uint8>)
  {
    |bytes| == 0 || (p + |bytes| <= |data| && data[p..p + |bytes|] == bytes)
  }

  lemma BytesAtCons(data: seq<uint8>, p: nat, bytes: seq<uint8>)
    requires |bytes| > 0
    ensures BytesAt(data, p, bytes) <==>
              p < |data| && data[p] == bytes[0] && BytesAt(data, p + 1, bytes[1..])
  {
    if p + |bytes| <= |data| {
      assert data[p..p + |bytes|] == [data[p]] + data[p + 1..p + |bytes|];
    }
  }

  /** A matched first byte extends a matched prefix of the remaining bytes by one. */
  lemma BytesAtPrefixCons(data: seq<uint8>, p: nat, bytes: seq<uint8>, k: nat)
    requires k < |bytes| && p < |data| && data[p] == bytes[0]
    requires BytesAt(data, p + 1, bytes[1..][..k])
    ensures BytesAt(data, p, bytes[..k + 1])
  {
    assert bytes[..k + 1][1..] == bytes[1..][..k];
    BytesAtCons(data, p, bytes[..k + 1]);
  }

  /**
   * The end-of-stream probe: true exactly when a one-byte read at the cursor
   * would succeed. The cursor is an argument, so the probe consumes nothing.
   */
  function More(data: seq<uint8>, p: nat): (b: bool)
    ensures b <==> ReadU1(data, p).Ok?
    ensures b ==> ReadU1(data, p).value.value == data[p]
  {
    p < |data|
  }

  /** The magic check on its own: the outcome for each way the first two bytes can look. */
  lemma ExpectMagicCases(data: seq<uint8>, p: nat)
    ensures p < |data| && data[p] != 0x50 ==>
              Expect(data, p, MAGIC) == Err(Malformed(0x50, data[p], p + 1))
    ensures p + 1 < |data| && data[p] == 0x50 && data[p + 1] != 0x47 ==>
              Expect(data, p, MAGIC) == Err(Malformed(0x47, data[p + 1], p + 2))
    ensures p + 2 <= |data| && data[p] == 0x50 && data[p + 1] == 0x47 ==>
              Expect(data, p, MAGIC) == Ok(p + 2)
    ensures (p >= |data| || (p + 1 == |data| && data[p] == 0x50)) ==>
              Expect(data, p, MAGIC) == Err(Truncated)
  {
    assert MAGIC[1..] == [0x47];
    assert MAGIC[1..][1..] == [];
  }
}
