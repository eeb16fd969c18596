# sup-count-forced in Dafny

sup-count-forced reads a Presentation Graphics Stream (a Blu-ray SUP subtitle
file). The stream is a sequence of segments. Each segment opens with a 13-byte
header:

- the magic bytes "PG";
- a presentation timestamp;
- a decoding timestamp, which is read and dropped;
- a type tag;
- a 16-bit body size.

For every presentation composition segment (PCS, tag 0x16) the tool reads:

- the 11-byte composition prefix;
- the number of composition objects announced in its last byte;
- that many 16-byte object records.

It counts the announced objects, and among them those whose flag byte equals
0x40 ("forced"). After each segment it seeks to the end of the declared body,
whatever the PCS decoding consumed, and carries on until no byte is left. A
missing byte or a wrong magic byte ends the run with an error.

This project models that core as pure functions over an immutable byte sequence
with an explicit cursor:

- `Format`: the big-endian integer layout, the enumerated byte values, and the
  three records. It also holds writers that lay each record out in bytes; these
  serve only as the reference layout the decoders are proved against.
- `Reader`: the byte reader. It covers one-, two- and four-byte reads, the
  expected-bytes check and the end-of-stream probe.
- `Records`: the decoders of the segment header, the composition prefix and a
  sprite record, with their round trips against the writers.
- `Walker`: one step of the counting loop (`Step`), the whole walk
  (`SupCountForced`), and methods that run the loop as the program writes it
  and are proved to compute the same result.
- `Streams`: a reference model of a well-formed stream as a list of framed
  segments. The walker's counts on such a stream are proved to equal a fold
  over that list. Truncated and corrupted streams are covered as well.
- `Scenarios`: a worked two-object stream, and what happens when it is cut
  short or its magic is corrupted.

The model follows the code at three points where a reader might expect
something else:

- A sprite record is read as 16 bytes: object id (2), window id (1), flag (1)
  and six 16-bit fields. The code reads these whole 16 bytes for every record
  and never looks at the cropping bit.
- The offset in a "malformed" error is the cursor after the offending byte was
  read. A bad first magic byte therefore reports offset 1, not 0.
- A final segment of a type other than PCS whose body is cut short is accepted.
  The seek goes past the end of the data, the end-of-stream probe then fails,
  and the walk ends normally (`Streams.ShortFinalBodyAccepted`). The same holds
  for a final PCS whose prefix and announced records fit but whose declared
  body, padding included, runs past the end of the data. It is counted, and no
  truncation is reported (`Walker.CompositionPaddingCutAccepted`).

## Model

| member | source | states |
|---|---|---|
| Format.BeU2 | src/sup-count-forced.cpp:46-51 | the two-byte big-endian layout of a value reads back, high byte first, as that value |
| Format.BeU4 | src/sup-count-forced.cpp:53-58 | the four-byte big-endian layout of a value reads back as that value |
| Format.BeU4OfU32At | src/sup-count-forced.cpp:53-58 | four bytes read big-endian and laid out again give back the same four bytes (the layout is a left inverse of the read) |
| Reader.ReadU1 | src/sup-count-forced.cpp:39-44 | a one-byte read succeeds exactly when the cursor is before the end; it then yields that byte and advances by one; otherwise the error is a truncation |
| Reader.ReadU2 | src/sup-count-forced.cpp:46-51 | a two-byte read succeeds exactly when two bytes remain; it yields their big-endian value, advances by two, and fails only as a truncation |
| Reader.ReadU4 | src/sup-count-forced.cpp:53-58 | a four-byte read succeeds exactly when four bytes remain; it yields their big-endian value, which is the first 16-bit half shifted by 16 plus the second; it advances by four and fails only as a truncation |
| Reader.Expect | src/sup-count-forced.cpp:60-68 | succeeds exactly when the expected bytes are at the cursor, ending just past them. A mismatch names the first differing byte with its expected value, and its offset is the cursor just after it, with all earlier bytes matched. A truncation means the data ran out while every byte read so far matched |
| Reader.More | src/sup-count-forced.cpp:83-89 | the probe is true exactly when a one-byte read at the cursor would succeed and would yield the byte there; being a function of the cursor, it consumes nothing |
| Reader.ExpectMagicCases | src/sup-count-forced.cpp:60-68 | for the "PG" magic: the outcome for each shape of the first two bytes. A wrong first byte gives a malformed error at p+1, a wrong second byte one at p+2, both right gives success at p+2, and running out gives a truncation |
| Records.DecodeSegment | src/sup-count-forced.cpp:106-113 | a header decodes exactly when 13 bytes remain and the first two are "PG". The result is the big-endian time at offset 2, the tag at 10 and the size at 11, with the cursor 13 bytes on. A bad first or second magic byte gives the corresponding malformed error. A truncation happens exactly when fewer than 13 bytes remain and the magic bytes present are right |
| Records.DecodeComposition | src/sup-count-forced.cpp:126-136 | the composition prefix decodes exactly when 11 bytes remain, with the object count taken from byte 10 and the cursor 11 bytes on; otherwise the error is a truncation |
| Records.DecodeSprite | src/sup-count-forced.cpp:147-158 | a sprite record decodes exactly when 16 bytes remain, with the flag taken from byte 3 and the cursor 16 bytes on; otherwise the error is a truncation |
| Records.EncodeHeaderInjective | src/sup-count-forced.cpp:106-113 | two header layouts are equal only if the segments and the dropped timestamps are equal |
| Records.EncodeCompositionInjective | src/sup-count-forced.cpp:126-136 | two composition layouts are equal only if the compositions and the reserved bytes are equal |
| Records.EncodeSpriteInjective | src/sup-count-forced.cpp:147-158 | two sprite layouts are equal only if the sprites are equal |
| Records.DecodeEncodedSegment | src/sup-count-forced.cpp:106-113 | round trip: a header laid out at the cursor decodes to that same segment, 13 bytes on |
| Records.DecodeEncodedComposition | src/sup-count-forced.cpp:126-136 | round trip: a composition prefix laid out at the cursor decodes to that same composition, 11 bytes on |
| Records.DecodeEncodedSprite | src/sup-count-forced.cpp:147-158 | round trip: a sprite record laid out at the cursor decodes to that same sprite, 16 bytes on |
| Records.SegmentLayout | src/sup-count-forced.cpp:106-113 | the other round trip: a header that decodes, laid out again with its dropped timestamp, gives back the 13 bytes it was read from |
| Records.CompositionLayout | src/sup-count-forced.cpp:126-136 | a composition prefix that decodes, laid out again with its reserved byte, gives back the 11 bytes it was read from |
| Records.SpriteLayout | src/sup-count-forced.cpp:147-158 | a sprite record that decodes, laid out again, gives back the 16 bytes it was read from |
| Walker.ForcedCount | src/sup-count-forced.cpp:169-172 | the number of forced sprites in a list never exceeds the list's length |
| Walker.IsForced | src/sup-count-forced.cpp:171 | a sprite is forced exactly when its flag byte equals 0x40. A forced flag has bit 6 set, but this is not a bit test: 0xC0 has the same bit set and is not forced |
| Walker.ReadSprites | src/sup-count-forced.cpp:169-172 | reading n sprite records succeeds exactly when n * 16 bytes remain (or n is 0). It yields n sprites and ends n * 16 bytes on. The i-th sprite carries byte 3 of the record at p + 16 * i as its flag, and the number of forced sprites equals the number of those bytes that are 0x40. Otherwise the error is a truncation |
| Walker.Step | src/sup-count-forced.cpp:164-174 | a header error is passed through unchanged. Otherwise a step fails, always as a truncation, exactly when a PCS lacks its prefix or one of its announced records. On success it resumes at p + 13 + size whatever was consumed. A PCS adds its announced count and its records' 0x40 flag bytes; any other type adds nothing |
| Walker.Walk | src/sup-count-forced.cpp:163-175 | at or past the end the walk returns its counters unchanged. On success neither counter decreases, and forced grows by no more than total |
| Walker.SupCountForced | src/sup-count-forced.cpp:160-177 | on success the forced count never exceeds the object count, and an empty input counts 0 of 0 |
| Walker.BadFirstMagic | src/sup-count-forced.cpp:60-68 | an input whose first byte is not 0x50 is rejected as malformed, expecting 0x50, got that byte, at offset 1 |
| Walker.StepOfHeader | src/sup-count-forced.cpp:164-174 | a segment of a type other than PCS is skipped whole, its body unread, and counts nothing |
| Walker.StepOfComposition | src/sup-count-forced.cpp:166-174 | a PCS whose prefix and announced records fit adds its announced count to the total, and the records with flag 0x40 to the forced count, then resumes at the end of its declared body |
| Walker.CompositionPaddingCutAccepted | src/sup-count-forced.cpp:163-174 | a PCS whose prefix and announced records fit, but whose declared body runs past the end of the data, is accepted. The step succeeds and the walk ends cleanly with that PCS's count and forced flags added |
| Walker.CountSprites | src/sup-count-forced.cpp:169-172 | the inner loop succeeds exactly when all announced records fit; it then returns the number of records whose flag byte is 0x40, which is at most the count. Otherwise the error is a truncation |
| Walker.VisitSegment | src/sup-count-forced.cpp:164-174 | the loop body as written, with its header read, seek target and PCS branch, computes exactly the step the walk takes |
| Walker.VisitComposition | src/sup-count-forced.cpp:166-173 | the PCS branch as written, with prefix and sprite loop, computes exactly the step of a PCS header |
| Walker.CountLoop | src/sup-count-forced.cpp:160-177 | the counting loop as written computes exactly what the walk defines, with forced at most total |
| Streams.StepOverUnit | src/sup-count-forced.cpp:164-174 | one step over a well-formed segment yields that segment's header, the counts read from its own body, and the position just past its body |
| Streams.WalkOverUnits | src/sup-count-forced.cpp:163-175 | walking over any run of well-formed segments lands just past the run with the run's reference counts added, whatever bytes surround it |
| Streams.CountsOfEncodedStream | src/sup-count-forced.cpp:160-177 | on any well-formed stream the walker succeeds with the reference counts. Total is the sum of the announced counts of the PCS segments; forced is the number of their records with flag 0x40 |
| Streams.NoCompositionsCountNothing | src/sup-count-forced.cpp:166-173 | in the reference model, segments other than PCS never move either counter |
| Streams.NoCompositionsStream | src/sup-count-forced.cpp:160-177 | a well-formed stream without PCS segments counts 0 forced of 0 |
| Streams.ShortFinalBodyAccepted | src/sup-count-forced.cpp:163-174 | after a well-formed stream, a final segment of another type whose body is cut short is accepted, and the counts are those of the complete segments |
| Streams.CutHeaderTruncated | src/sup-count-forced.cpp:39-44 | a well-formed stream followed by a header cut after 1 to 12 bytes fails as truncated |
| Streams.BadMagicAfterStream | src/sup-count-forced.cpp:60-68 | a well-formed stream followed by a segment that does not start with 0x50 fails as malformed, at the offset just past that byte |
| Streams.ForcedFlagsShift | src/sup-count-forced.cpp:169-172 | counting the forced flags of a run of records depends only on the records' bytes, not on where they sit in the stream |
| Scenarios.TwoSpriteScene | src/sup-count-forced.cpp:166-172 | a PCS announcing two records, the first forced, followed by an END segment, counts 2 objects. It counts 2 forced when the second flag byte is exactly 0x40, and 1 otherwise (0xC0 included) |
| Scenarios.TwoSpriteSceneCut | src/sup-count-forced.cpp:39-44 | that 71-byte stream cut to 66 bytes, inside the END header, fails as truncated |
| Scenarios.TwoSpriteSceneBadMagic | src/sup-count-forced.cpp:60-68 | that stream with its first byte replaced by 0x51 fails as malformed, expecting 0x50, got 0x51, at offset 1 |

## Left out

- Program entry, argument handling, and opening and closing the input files
  (src/sup-count-forced.cpp:25-30 and 184-190): the model takes one input's
  bytes as a parameter, and each input is counted independently.
- Read and seek failures of the operating system (`ferror`, `ftello`,
  `fseeko`): the data is an in-memory sequence and the cursor an integer, so
  neither can fail.
- Error message text, exit status and the printed output line: the walk
  returns an `Error` value or the two counters instead.
- The push-back of the probed byte in `more`: the probe is a pure function of
  the cursor, so there is nothing to push back.
- Walker.SupCountForced: the counters are unbounded naturals, whereas the
  program's are `uintmax_t`. Wrap-around would need more than 2^64 objects and
  is not modelled.
- Reader.Expect: the program compares a `char` from the expected text with the
  byte read. That comparison can only differ for expected bytes of 0x80 and
  above, and the only expected text is "PG", so the model compares the bytes
  directly.
- Records.DecodeComposition: its contract names only the object count and the
  length consumed, because the other fields are not used by the counter. They
  are still decoded, and Records.DecodeEncodedComposition and
  Records.CompositionLayout pin them down.
- Records.DecodeSprite: its contract names only the flag byte and the length
  consumed, for the same reason. Records.DecodeEncodedSprite and
  Records.SpriteLayout pin down the other fields.
- The reference stream model (`Streams`) covers streams whose every segment is
  exactly framed, plus the cut and corrupted cases proved separately. Other
  malformed inputs are covered only by the step-level contracts of
  Walker.Step and Walker.Walk.
