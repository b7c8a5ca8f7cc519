/** The cache snapshot file: a 60-octet header, then length-prefixed records.

    The cryptographic digest is a parameter. Deadlines, and I/O errors other than a short file, are not modelled. */
module SnapshotFile {
  import opened Basics
  import opened ByteCodec
  import opened CachePort
  import RecordCodec

  const MAGIC: Bytes := ['F' as nat, 'D' as nat, 'C' as nat, 'S' as nat]
  const FORMAT_VERSION: nat := 1
  const HEADER_BYTES: nat := 60
  const MAX_RECORDS: nat := 100_000
  const MAX_RECORD_BYTES: nat := 2 * 1024 * 1024
  const VERIFY_BUFFER_BYTES: nat := 64 * 1024

  /** A digest of 32 octets. */
  type Digest = bytes: Bytes | |bytes| == 32 witness seq(32, i => 0)

  type Hash = Bytes -> Digest

  datatype SnapshotError = CorruptFile | IncompatibleFile | ExhaustedFile | Io

  function OfCodec(error: CodecError): SnapshotError {
    match error
    case Corrupt => CorruptFile
    case Incompatible => IncompatibleFile
    case ResourceExhausted => ExhaustedFile
  }

  type Entry = (CacheKey, CacheRecord)

  // ---------------------------------------------------------------- header

  datatype Header = Header(generatedAt: U64, recordCount: nat, bodyBytes: U64, checksum: Digest)

  function EncodeHeader(header: Header): Bytes {
    MAGIC + (BigEndian(FORMAT_VERSION, 2) + (BigEndian(HEADER_BYTES, 2) + (BigEndian(header.generatedAt, 8)
      + (BigEndian(header.recordCount, 4) + (BigEndian(header.bodyBytes, 8) + header.checksum)))))
  }

  function DecodeHeader(bytes: Bytes): Result<Header, SnapshotError>
    requires |bytes| == HEADER_BYTES
  {
    if bytes[0..4] != MAGIC then Err(CorruptFile)
    else if FromBigEndian(bytes[4..6]) != FORMAT_VERSION then Err(IncompatibleFile)
    else if FromBigEndian(bytes[6..8]) != HEADER_BYTES then Err(CorruptFile)
    else
      FromBigEndianRoundTrip(bytes[8..16]);
      FromBigEndianRoundTrip(bytes[20..28]);
      Powers();
      Ok(Header(FromBigEndian(bytes[8..16]), FromBigEndian(bytes[16..20]), FromBigEndian(bytes[20..28]), bytes[28..60]))
  }

  lemma HeaderFront(header: Header)
    ensures var bytes := EncodeHeader(header);
      && |bytes| == HEADER_BYTES && bytes[0..4] == MAGIC
      && bytes[4..6] == BigEndian(FORMAT_VERSION, 2) && bytes[6..8] == BigEndian(HEADER_BYTES, 2)
  {
  }

  lemma HeaderBack(header: Header)
    ensures var bytes := EncodeHeader(header);
      && |bytes| == HEADER_BYTES && bytes[8..16] == BigEndian(header.generatedAt, 8)
      && bytes[16..20] == BigEndian(header.recordCount, 4) && bytes[20..28] == BigEndian(header.bodyBytes, 8)
      && bytes[28..60] == header.checksum
  {
    var front := MAGIC + (BigEndian(FORMAT_VERSION, 2) + BigEndian(HEADER_BYTES, 2));
    var back := BigEndian(header.generatedAt, 8)
      + (BigEndian(header.recordCount, 4) + (BigEndian(header.bodyBytes, 8) + header.checksum));
    var bytes := EncodeHeader(header);
    assert bytes == front + back;
    assert bytes[8..16] == back[0..8] && bytes[16..20] == back[8..12] && bytes[20..28] == back[12..20]
        && bytes[28..60] == back[20..52];
  }

  lemma HeaderRoundTrip(header: Header)
    requires header.recordCount <= MAX_U32
    ensures |EncodeHeader(header)| == HEADER_BYTES && DecodeHeader(EncodeHeader(header)) == Ok(header)
  {
    HeaderFront(header);
    HeaderBack(header);
    Powers();
    BigEndianRoundTrip(FORMAT_VERSION, 2);
    BigEndianRoundTrip(HEADER_BYTES, 2);
    BigEndianRoundTrip(header.generatedAt, 8);
    BigEndianRoundTrip(header.recordCount, 4);
    BigEndianRoundTrip(header.bodyBytes, 8);
  }

  /** What the checksum covers after the body. */
  function Metadata(header: Header): Bytes {
    BigEndian(header.generatedAt, 8) + BigEndian(header.recordCount, 4) + BigEndian(header.bodyBytes, 8)
  }

  // ---------------------------------------------------------------- reading

  datatype Summary = Summary(loaded: U64, expired: U64, corrupt: U64, incompatible: U64)

  function Total(summary: Summary): nat {
    summary.loaded + summary.expired + summary.corrupt + summary.incompatible
  }

  /** The unread part of a file and what was counted so far. */
  datatype Cursor = Cursor(file: Bytes, remaining: nat, summary: Summary, seen: set<Digest>)

  datatype Frame = Skipped | Delivered(entry: Entry) | Unreadable(error: SnapshotError)

  /** What the reader works with: the record decoder, the digest of a key's storage form, and the instant it was
      opened at. The wall clock is read anew for every record, so decoding also depends on how many records are left. */
  datatype Codec = Codec(
    decode: (Bytes, nat) -> Result<Entry, CodecError>,
    digest: CacheKey -> Result<Digest, CodecError>,
    now: Instant)

  /** Counting one decoded payload. */
  function Counted(codec: Codec, cursor: Cursor, payload: Bytes): (Cursor, Frame) {
    var summary := cursor.summary;
    match codec.decode(payload, cursor.remaining)
    case Err(Incompatible) =>
      (cursor.(summary := summary.(incompatible := SaturatingAdd(summary.incompatible, 1))), Skipped)
    case Err(_) => (cursor.(summary := summary.(corrupt := SaturatingAdd(summary.corrupt, 1))), Skipped)
    case Ok((key, record)) =>
      match codec.digest(key)
      case Err(error) => (cursor, Unreadable(OfCodec(error)))
      case Ok(digest) =>
        if digest in cursor.seen
        then (cursor.(summary := summary.(corrupt := SaturatingAdd(summary.corrupt, 1))), Skipped)
        else if IsAnswerable(record, codec.now) then
          (cursor.(summary := summary.(loaded := SaturatingAdd(summary.loaded, 1)), seen := cursor.seen + {digest}),
           Delivered((key, record)))
        else
          (cursor.(summary := summary.(expired := SaturatingAdd(summary.expired, 1)), seen := cursor.seen + {digest}),
              Skipped)
  }

  /** One turn of the reading loop. */
  function ReadFrame(codec: Codec, cursor: Cursor): (Cursor, Frame) {
    if cursor.remaining == 0 then (cursor, Unreadable(Io))
    else match ReadNumber(cursor.file, 4)
    case Err(_) => (cursor, Unreadable(Io))
    case Ok((length, rest)) =>
      var started := cursor.(file := rest, remaining := cursor.remaining - 1);
      if length > MAX_RECORD_BYTES then (started, Unreadable(CorruptFile))
      else match ReadOctets(rest, length)
        case Err(_) => (started, Unreadable(Io))
        case Ok((payload, rest)) => Counted(codec, started.(file := rest), payload)
  }

  lemma FrameTakesOne(codec: Codec, cursor: Cursor)
    requires cursor.remaining > 0
    ensures var (next, frame) := ReadFrame(codec, cursor);
      && (!frame.Unreadable? ==> next.remaining == cursor.remaining - 1)
      && (!frame.Unreadable? && Total(cursor.summary) < U64_MAX ==>
          && Total(next.summary) == Total(cursor.summary) + 1
          && next.summary.loaded == cursor.summary.loaded + if frame.Delivered? then 1 else 0)
  {
  }

  /** One turn of some reading loop. */
  type FrameReader = Cursor -> (Cursor, Frame)

  function FramesOf(codec: Codec): FrameReader {
    cursor => ReadFrame(codec, cursor)
  }

  /** Reading until `size` records are delivered or none is left; a turn that takes no record from the file fails. */
  function Batch(read: FrameReader, cursor: Cursor, size: nat): (Cursor, Result<seq<Entry>, SnapshotError>)
    decreases cursor.remaining
  {
    if cursor.remaining == 0 || size == 0 then (cursor, Ok([]))
    else
      var (next, frame) := read(cursor);
      if frame.Unreadable? then (next, Err(frame.error))
      else if next.remaining >= cursor.remaining then (next, Err(Io))
      else if frame.Skipped? then Batch(read, next, size)
      else Prefixed([frame.entry], Batch(read, next, size - 1))
  }

  function Prefixed(batch: seq<Entry>, result: (Cursor, Result<seq<Entry>, SnapshotError>))
    : (Cursor, Result<seq<Entry>, SnapshotError>)
  {
    (result.0, if result.1.Ok? then Ok(batch + result.1.value) else result.1)
  }

  lemma PrefixedTwice(first: seq<Entry>, second: seq<Entry>, result: (Cursor, Result<seq<Entry>, SnapshotError>))
    ensures Prefixed(first, Prefixed(second, result)) == Prefixed(first + second, result)
    ensures Prefixed([], result) == result
  {
    if result.1.Ok? {
      assert first + (second + result.1.value) == first + second + result.1.value;
      assert [] + result.1.value == result.1.value;
    }
  }

  /** A turn that reads a record takes it from the file. */
  ghost predicate TakesRecords(read: FrameReader) {
    forall cursor: Cursor | cursor.remaining > 0 && !read(cursor).1.Unreadable? ::
      read(cursor).0.remaining < cursor.remaining
  }

  /** The loop of `next_batch`. */
  method ReadBatch(read: FrameReader, start: Cursor, size: nat)
    returns (cursor: Cursor, result: Result<seq<Entry>, SnapshotError>)
    requires TakesRecords(read)
    ensures (cursor, result) == Batch(read, start, size)
  {
    cursor := start;
    var batch: seq<Entry> := [];
    PrefixedTwice([], [], Batch(read, cursor, size));
    while cursor.remaining > 0 && |batch| < size
      invariant |batch| <= size
      invariant Batch(read, start, size) == Prefixed(batch, Batch(read, cursor, size - |batch|))
      decreases cursor.remaining
    {
      var (next, frame) := read(cursor);
      cursor := next;
      match frame {
        case Unreadable(error) =>
          return cursor, Err(error);
        case Skipped =>
        case Delivered(entry) =>
          PrefixedTwice(batch, [entry], Batch(read, next, size - |batch| - 1));
          batch := batch + [entry];
      }
    }
    assert batch + [] == batch;
    result := Ok(batch);
  }

  lemma FramesTakeRecords(codec: Codec)
    ensures TakesRecords(FramesOf(codec))
  {
    forall cursor: Cursor | cursor.remaining > 0 && !FramesOf(codec)(cursor).1.Unreadable?
      ensures FramesOf(codec)(cursor).0.remaining < cursor.remaining
    {
      FrameTakesOne(codec, cursor);
    }
  }

  /** `CacheSnapshotReader` */
  class CacheSnapshotReader {
    const codec: Codec
    var cursor: Cursor

    constructor (codec: Codec, cursor: Cursor)
      ensures this.codec == codec && this.cursor == cursor
    {
      this.codec, this.cursor := codec, cursor;
    }

    method NextBatch(size: nat) returns (result: Result<seq<Entry>, SnapshotError>)
      modifies this
      ensures size == 0 ==> result == Err(ExhaustedFile) && cursor == old(cursor)
      ensures size > 0 ==> (cursor, result) == Batch(FramesOf(codec), old(cursor), size)
    {
      if size == 0 {
        return Err(ExhaustedFile);
      }
      FramesTakeRecords(codec);
      cursor, result := ReadBatch(FramesOf(codec), cursor, size);
    }
  }

  // ---------------------------------------------------------------- batches

  /** Two successive batches read what one batch of both sizes reads. */
  lemma {:induction false} BatchesJoin(read: FrameReader, cursor: Cursor, first: nat, second: nat)
    requires Batch(read, cursor, first).1.Ok?
    ensures Batch(read, cursor, first + second) ==
      Prefixed(Batch(read, cursor, first).1.value, Batch(read, Batch(read, cursor, first).0, second))
    decreases cursor.remaining
  {
    if cursor.remaining == 0 || first == 0 {
      PrefixedTwice([], [], Batch(read, cursor, second));
    } else {
      var (next, frame) := read(cursor);
      if frame.Skipped? {
        BatchesJoin(read, next, first, second);
      } else {
        BatchesJoin(read, next, first - 1, second);
        var (middle, head) := Batch(read, next, first - 1);
        PrefixedTwice([frame.entry], head.value, Batch(read, middle, second));
      }
    }
  }

  /** A batch as large as the rest of the file reads all of it. */
  lemma {:induction false} LargeBatchCompletes(read: FrameReader, cursor: Cursor, size: nat)
    requires size >= cursor.remaining && Batch(read, cursor, size).1.Ok?
    ensures Batch(read, cursor, size).0.remaining == 0
    decreases cursor.remaining
  {
    if cursor.remaining > 0 {
      var (next, frame) := read(cursor);
      LargeBatchCompletes(read, next, if frame.Skipped? then size else size - 1);
    }
  }

  /** The whole file in one pass. */
  function SinglePass(read: FrameReader, cursor: Cursor): (Cursor, Result<seq<Entry>, SnapshotError>) {
    Batch(read, cursor, cursor.remaining)
  }

  /** Successive batches of given sizes, up to the first that fails. */
  function Batches(read: FrameReader, cursor: Cursor, sizes: seq<nat>): (Cursor, Result<seq<Entry>, SnapshotError>)
    decreases |sizes|
  {
    if sizes == [] then (cursor, Ok([]))
    else
      var (next, first) := Batch(read, cursor, sizes[0]);
      if first.Err? then (next, first) else Prefixed(first.value, Batches(read, next, sizes[1..]))
  }

  /** An error is met by every larger batch as well. */
  lemma {:induction false} ErrorStays(read: FrameReader, cursor: Cursor, size: nat, extra: nat)
    requires Batch(read, cursor, size).1.Err?
    ensures Batch(read, cursor, size + extra) == Batch(read, cursor, size)
    decreases cursor.remaining
  {
    var (next, frame) := read(cursor);
    if frame.Skipped? && next.remaining < cursor.remaining {
      ErrorStays(read, next, size, extra);
    } else if frame.Delivered? && next.remaining < cursor.remaining {
      ErrorStays(read, next, size - 1, extra);
    }
  }

  /** Batches at least as large as the rest of the file agree. */
  lemma {:induction false} LargeBatchesAgree(read: FrameReader, cursor: Cursor, size: nat, other: nat)
    requires size >= cursor.remaining && other >= cursor.remaining
    ensures Batch(read, cursor, size) == Batch(read, cursor, other)
    decreases cursor.remaining
  {
    if cursor.remaining > 0 {
      var (next, frame) := read(cursor);
      if frame.Skipped? && next.remaining < cursor.remaining {
        LargeBatchesAgree(read, next, size, other);
      } else if frame.Delivered? && next.remaining < cursor.remaining {
        LargeBatchesAgree(read, next, size - 1, other - 1);
      }
    }
  }

  function Sum(sizes: seq<nat>): nat {
    if sizes == [] then 0 else sizes[0] + Sum(sizes[1..])
  }

  /** Successive batches of any sizes read what one batch of all their sizes reads: the same records in order, the same
      counts, and the same error if there is one. */
  lemma {:induction false} BatchesAreOneBatch(read: FrameReader, cursor: Cursor, sizes: seq<nat>)
    ensures Batches(read, cursor, sizes) == Batch(read, cursor, Sum(sizes))
    decreases |sizes|
  {
    if sizes != [] {
      var (next, first) := Batch(read, cursor, sizes[0]);
      if first.Err? {
        ErrorStays(read, cursor, sizes[0], Sum(sizes[1..]));
      } else {
        BatchesAreOneBatch(read, next, sizes[1..]);
        BatchesJoin(read, cursor, sizes[0], Sum(sizes[1..]));
      }
    }
  }

  /** So batches with room for the rest of the file read it as a single pass does. */
  lemma BatchSizesDoNotMatter(read: FrameReader, cursor: Cursor, sizes: seq<nat>)
    requires Sum(sizes) >= cursor.remaining
    ensures Batches(read, cursor, sizes) == SinglePass(read, cursor)
  {
    BatchesAreOneBatch(read, cursor, sizes);
    LargeBatchesAgree(read, cursor, Sum(sizes), cursor.remaining);
  }

  /** Every record read is counted once, and exactly the loaded ones are delivered. */
  lemma {:induction false} EveryRecordIsCountedOnce(codec: Codec, cursor: Cursor, size: nat)
    requires Total(cursor.summary) + cursor.remaining <= U64_MAX
    requires Batch(FramesOf(codec), cursor, size).1.Ok?
    ensures var (last, records) := Batch(FramesOf(codec), cursor, size);
      && Total(last.summary) + last.remaining == Total(cursor.summary) + cursor.remaining
      && last.summary.loaded == cursor.summary.loaded + |records.value|
    decreases cursor.remaining
  {
    if cursor.remaining > 0 && size > 0 {
      FrameTakesOne(codec, cursor);
      var (next, frame) := FramesOf(codec)(cursor);
      EveryRecordIsCountedOnce(codec, next, if frame.Skipped? then size else size - 1);
    }
  }

  // ---------------------------------------------------------------- writing

  /** What the writer works with. The wall clock is read anew for every record, so encoding also depends on how many
      records were written before. */
  datatype Encoder = Encoder(
    encode: (Entry, nat) -> Result<Bytes, CodecError>,
    digest: CacheKey -> Result<Digest, CodecError>,
    hash: Hash)

  function FrameBytes(payload: Bytes): Bytes {
    BigEndian(|payload|, 4) + payload
  }

  function Body(payloads: seq<Bytes>): Bytes {
    if payloads == [] then [] else FrameBytes(payloads[0]) + Body(payloads[1..])
  }

  /** The payload of an entry the writer keeps. */
  function PayloadOf(encoder: Encoder, entry: Entry, count: nat): Result<Bytes, SnapshotError> {
    if count >= MAX_RECORDS then Err(ExhaustedFile)
    else match encoder.encode(entry, count)
      case Err(error) => Err(OfCodec(error))
      case Ok(payload) => if |payload| > MAX_RECORD_BYTES then Err(ExhaustedFile) else Ok(payload)
  }

  /** The entries and payloads written: the first entry of every key digest. */
  function Written(encoder: Encoder, entries: seq<Entry>, seen: set<Digest>, count: nat)
    : Result<seq<(Entry, Bytes)>, SnapshotError>
  {
    if entries == [] then Ok([])
    else match encoder.digest(entries[0].0)
      case Err(error) => Err(OfCodec(error))
      case Ok(digest) =>
        if digest in seen then Written(encoder, entries[1..], seen, count)
        else
          var payload :- PayloadOf(encoder, entries[0], count);
          var rest :- Written(encoder, entries[1..], seen + {digest}, count + 1);
          Ok([(entries[0], payload)] + rest)
  }

  function Payloads(written: seq<(Entry, Bytes)>): seq<Bytes> {
    seq(|written|, i requires 0 <= i < |written| => written[i].1)
  }

  function FileBytes(hash: Hash, generatedAt: U64, payloads: seq<Bytes>): Bytes
    requires |Body(payloads)| <= U64_MAX
  {
    var body := Body(payloads);
    var unsigned := Header(generatedAt, |payloads|, |body|, seq(32, i => 0));
    EncodeHeader(unsigned.(checksum := hash(body + Metadata(unsigned)))) + body
  }

  lemma {:induction false} BodyConcat(first: seq<Bytes>, second: seq<Bytes>)
    ensures Body(first + second) == Body(first) + Body(second)
  {
    if first == [] {
      assert first + second == second;
    } else {
      assert (first + second)[1..] == first[1..] + second;
      BodyConcat(first[1..], second);
      var frame := FrameBytes(first[0]);
      assert frame + (Body(first[1..]) + Body(second)) == frame + Body(first[1..]) + Body(second);
    }
  }

  lemma {:induction false} BodySize(payloads: seq<Bytes>)
    requires forall i | 0 <= i < |payloads| :: |payloads[i]| <= MAX_RECORD_BYTES
    ensures |Body(payloads)| <= |payloads| * (MAX_RECORD_BYTES + 4)
  {
    if payloads != [] {
      var rest := payloads[1..];
      BodySize(rest);
      assert |Body(payloads)| == 4 + |payloads[0]| + |Body(rest)|;
      assert |payloads| * (MAX_RECORD_BYTES + 4) == |rest| * (MAX_RECORD_BYTES + 4) + (MAX_RECORD_BYTES + 4);
    }
  }

  function Prepend(written: seq<(Entry, Bytes)>, rest: Result<seq<(Entry, Bytes)>, SnapshotError>)
    : Result<seq<(Entry, Bytes)>, SnapshotError>
  {
    if rest.Ok? then Ok(written + rest.value) else rest
  }

  lemma PrependTwice(first: seq<(Entry, Bytes)>, second: seq<(Entry, Bytes)>, rest: Result<seq<(Entry, Bytes)>,
      SnapshotError>)
    ensures Prepend(first, Prepend(second, rest)) == Prepend(first + second, rest)
    ensures Prepend([], rest) == rest
  {
    if rest.Ok? {
      assert first + (second + rest.value) == first + second + rest.value;
      assert [] + rest.value == rest.value;
    }
  }

  predicate FitsLimits(payloads: seq<Bytes>) {
    |payloads| <= MAX_RECORDS && forall i | 0 <= i < |payloads| :: |payloads[i]| <= MAX_RECORD_BYTES
  }

  /** What the pass over the entries leaves: the framed body, what was hashed, and how many records. */
  datatype Pass = Pass(body: Bytes, hashed: Bytes, bodyBytes: nat, count: nat)

  predicate Framed(pass: Pass, payloads: seq<Bytes>) {
    && pass.body == pass.hashed == Body(payloads) && pass.bodyBytes == |pass.body|
    && pass.count == |payloads| && FitsLimits(payloads)
  }

  lemma FramedNext(pass: Pass, written: seq<(Entry, Bytes)>, entry: Entry, payload: Bytes)
    requires Framed(pass, Payloads(written)) && pass.count < MAX_RECORDS && |payload| <= MAX_RECORD_BYTES
    ensures Framed(
      Pass(pass.body + FrameBytes(payload), pass.hashed + FrameBytes(payload), pass.bodyBytes + 4 + |payload|,
           pass.count + 1),
      Payloads(written + [(entry, payload)]))
  {
    NextFrame(written, entry, payload);
  }

  /** The pass of `write_temporary_snapshot` over the entries. */
  method WriteBody(encoder: Encoder, entries: seq<Entry>) returns (result: Result<Pass, SnapshotError>)
    ensures match Written(encoder, entries, {}, 0)
      case Err(error) => result == Err(error)
      case Ok(written) => result.Ok? && Framed(result.value, Payloads(written))
  {
    var pass := Pass([], [], 0, 0);
    var seen: set<Digest> := {};
    ghost var written: seq<(Entry, Bytes)> := [];
    ghost var all := Written(encoder, entries, {}, 0);
    PrependTwice([], [], all);
    assert entries[0..] == entries;
    for i := 0 to |entries|
      invariant all == Prepend(written, Written(encoder, entries[i..], seen, pass.count))
      invariant Framed(pass, Payloads(written))
    {
      var entry := entries[i];
      assert entries[i..][1..] == entries[i + 1..];
      var digest := encoder.digest(entry.0);
      if digest.Err? {
        return Err(OfCodec(digest.error));
      }
      if digest.value !in seen {
        var payload := PayloadOf(encoder, entry, pass.count);
        if payload.Err? {
          return Err(payload.error);
        }
        var frame := FrameBytes(payload.value);
        FramedNext(pass, written, entry, payload.value);
        PrependTwice(written, [(entry, payload.value)],
            Written(encoder, entries[i + 1..], seen + {digest.value}, pass.count + 1));
        written := written + [(entry, payload.value)];
        seen := seen + {digest.value};
        pass := Pass(pass.body + frame, pass.hashed + frame, pass.bodyBytes + 4 + |payload.value|, pass.count + 1);
      }
    }
    assert entries[|entries|..] == [];
    assert written + [] == written;
    result := Ok(pass);
  }

  /** `write_temporary_snapshot`: one pass that frames, counts and hashes, then the header. */
  method WriteSnapshot(encoder: Encoder, entries: seq<Entry>, generatedAt: U64)
    returns (result: Result<Bytes, SnapshotError>)
    ensures match Written(encoder, entries, {}, 0)
      case Err(error) => result == Err(error)
      case Ok(written) =>
        && FitsLimits(Payloads(written)) && |Body(Payloads(written))| <= U64_MAX
        && result == Ok(FileBytes(encoder.hash, generatedAt, Payloads(written)))
  {
    var pass := WriteBody(encoder, entries);
    if pass.Err? {
      return Err(pass.error);
    }
    BodySize(Payloads(Written(encoder, entries, {}, 0).value));
    var unsigned := Header(generatedAt, pass.value.count, pass.value.bodyBytes, seq(32, i => 0));
    var checksum := encoder.hash(pass.value.hashed + Metadata(unsigned));
    result := Ok(EncodeHeader(unsigned.(checksum := checksum)) + pass.value.body);
  }

  lemma NextFrame(written: seq<(Entry, Bytes)>, entry: Entry, payload: Bytes)
    ensures Payloads(written + [(entry, payload)]) == Payloads(written) + [payload]
    ensures Body(Payloads(written + [(entry, payload)])) == Body(Payloads(written)) + FrameBytes(payload)
  {
    BodyConcat(Payloads(written), [payload]);
    assert Body([payload]) == FrameBytes(payload) + [] == FrameBytes(payload);
    assert Payloads(written + [(entry, payload)]) == Payloads(written) + [payload];
  }

  // ---------------------------------------------------------------- opening

  /** `open_cache_snapshot` on an existing file. */
  function Open(hash: Hash, file: Bytes, limit: nat): Result<Header, SnapshotError> {
    if |file| < HEADER_BYTES then Err(CorruptFile)
    else if |file| > limit then Err(ExhaustedFile)
    else
      var header :- DecodeHeader(file[..HEADER_BYTES]);
      if header.recordCount > MAX_RECORDS || HEADER_BYTES + header.bodyBytes != |file| then Err(CorruptFile)
      else if hash(file[HEADER_BYTES..] + Metadata(header)) != header.checksum then Err(CorruptFile)
      else Ok(header)
  }

  method OpenSnapshot(hash: Hash, file: Bytes, limit: nat) returns (result: Result<Header, SnapshotError>)
    ensures result == Open(hash, file, limit)
  {
    if |file| < HEADER_BYTES {
      return Err(CorruptFile);
    }
    if |file| > limit {
      return Err(ExhaustedFile);
    }
    var header := DecodeHeader(file[..HEADER_BYTES]);
    if header.Err? {
      return Err(header.error);
    }
    if header.value.recordCount > MAX_RECORDS || HEADER_BYTES + header.value.bodyBytes != |file| {
      return Err(CorruptFile);
    }
    var hashed: Bytes := [];
    var position, remaining := HEADER_BYTES, header.value.bodyBytes;
    while remaining > 0
      invariant 0 <= remaining && position + remaining == |file| && HEADER_BYTES <= position
      invariant hashed == file[HEADER_BYTES..position]
    {
      var length := if remaining < VERIFY_BUFFER_BYTES then remaining else VERIFY_BUFFER_BYTES;
      hashed := hashed + file[position..position + length];
      position, remaining := position + length, remaining - length;
    }
    assert hashed == file[HEADER_BYTES..];
    if hash(hashed + Metadata(header.value)) != header.value.checksum {
      return Err(CorruptFile);
    }
    result := header;
  }

  /** The part of a file its checksum is taken over: the body, then times and counts of the header. */
  function Covered(file: Bytes): Bytes
    requires |file| >= HEADER_BYTES
  {
    file[60..] + file[8..28]
  }

  /** The tests of a file, on its octets: its size, magic, version and header size, the number of records, the size
      of the body, and the checksum. */
  predicate Intact(hash: Hash, file: Bytes, limit: nat) {
    && 60 <= |file| <= limit
    && file[..4] == MAGIC && FromBigEndian(file[4..6]) == FORMAT_VERSION && FromBigEndian(file[6..8]) == 60
    && FromBigEndian(file[16..20]) <= MAX_RECORDS && 60 + FromBigEndian(file[20..28]) == |file|
    && hash(Covered(file)) == file[28..60]
  }

  lemma MetadataIsHeaderBytes(bytes: Bytes)
    requires |bytes| == HEADER_BYTES && DecodeHeader(bytes).Ok?
    ensures Metadata(DecodeHeader(bytes).value) == bytes[8..28]
  {
    FromBigEndianRoundTrip(bytes[8..16]);
    FromBigEndianRoundTrip(bytes[16..20]);
    FromBigEndianRoundTrip(bytes[20..28]);
    assert bytes[8..28] == bytes[8..16] + bytes[16..20] + bytes[20..28];
  }

  /** A file opens exactly when it is intact, and then with the header it carries. */
  lemma OpensExactlyWhenIntact(hash: Hash, file: Bytes, limit: nat)
    ensures Open(hash, file, limit).Ok? <==> Intact(hash, file, limit)
    ensures Open(hash, file, limit).Ok? ==>
      var header := Open(hash, file, limit).value;
      && header.generatedAt == FromBigEndian(file[8..16]) && header.recordCount == FromBigEndian(file[16..20])
      && header.bodyBytes == FromBigEndian(file[20..28]) && header.checksum == file[28..60]
  {
    if |file| >= HEADER_BYTES {
      HeaderSlices(file);
      if DecodeHeader(file[..HEADER_BYTES]).Ok? {
        MetadataIsHeaderBytes(file[..HEADER_BYTES]);
      }
    }
  }

  lemma HeaderSlices(file: Bytes)
    requires |file| >= HEADER_BYTES
    ensures var bytes := file[..HEADER_BYTES];
      && bytes[0..4] == file[..4] && bytes[4..6] == file[4..6] && bytes[6..8] == file[6..8]
      && bytes[8..16] == file[8..16]
      && bytes[16..20] == file[16..20] && bytes[20..28] == file[20..28] && bytes[28..60] == file[28..60]
      && bytes[8..28] == file[8..28]
  {
  }

  /** A file that differs from one that opens, but not in its checksum, does not open, unless the digest fails to tell
      the covered parts apart; one that differs in its checksum only never does. */
  lemma AlteredFileIsRefused(hash: Hash, file: Bytes, altered: Bytes, limit: nat)
    requires Open(hash, file, limit).Ok? && |altered| == |file| && altered != file
    requires altered[28..60] == file[28..60] || Covered(altered) == Covered(file)
    requires hash(Covered(altered)) == hash(Covered(file)) ==> Covered(altered) == Covered(file)
    ensures Open(hash, altered, limit).Err?
  {
    OpensExactlyWhenIntact(hash, file, limit);
    OpensExactlyWhenIntact(hash, altered, limit);
    if Intact(hash, altered, limit) {
      SameParts(file, altered);
    }
  }

  /** The parts of a file determine it. */
  lemma SameParts(file: Bytes, other: Bytes)
    requires |file| == |other| >= HEADER_BYTES && file[..4] == other[..4] && file[28..60] == other[28..60]
    requires FromBigEndian(file[4..6]) == FromBigEndian(other[4..6])
    requires FromBigEndian(file[6..8]) == FromBigEndian(other[6..8])
    requires Covered(file) == Covered(other)
    ensures file == other
  {
    FromBigEndianRoundTrip(file[4..6]);
    FromBigEndianRoundTrip(other[4..6]);
    FromBigEndianRoundTrip(file[6..8]);
    FromBigEndianRoundTrip(other[6..8]);
    var body := |file| - HEADER_BYTES;
    assert file[60..] == Covered(file)[..body] == Covered(other)[..body] == other[60..];
    assert file[8..28] == Covered(file)[body..] == Covered(other)[body..] == other[8..28];
    assert file == file[..4] + file[4..6] + file[6..8] + file[8..28] + file[28..60] + file[60..];
    assert other == other[..4] + other[4..6] + other[6..8] + other[8..28] + other[28..60] + other[60..];
  }

  /** A file that does not open is called too large, or of another version, exactly when it is, and corrupt
      otherwise. */
  lemma RefusalHasItsReason(hash: Hash, file: Bytes, limit: nat)
    requires Open(hash, file, limit).Err?
    ensures Open(hash, file, limit).error ==
      if |file| >= 60 && |file| > limit then ExhaustedFile
      else if |file| >= 60 && file[..4] == MAGIC && FromBigEndian(file[4..6]) != FORMAT_VERSION then IncompatibleFile
      else CorruptFile
  {
    if |file| >= HEADER_BYTES {
      HeaderSlices(file);
    }
  }

  /** A written file opens, with its own header. */
  lemma WrittenFileOpens(hash: Hash, generatedAt: U64, payloads: seq<Bytes>, limit: nat)
    requires FitsLimits(payloads) && |Body(payloads)| <= U64_MAX
    requires HEADER_BYTES + |Body(payloads)| <= limit
    ensures var file := FileBytes(hash, generatedAt, payloads);
      var readBack := Open(hash, file, limit);
      && readBack.Ok? && readBack.value.recordCount == |payloads| && readBack.value.generatedAt == generatedAt
      && |file| == HEADER_BYTES + |Body(payloads)| && file[HEADER_BYTES..] == Body(payloads)
  {
    var body := Body(payloads);
    var unsigned := Header(generatedAt, |payloads|, |body|, seq(32, i => 0));
    var header := unsigned.(checksum := hash(body + Metadata(unsigned)));
    HeaderRoundTrip(header);
    var file := FileBytes(hash, generatedAt, payloads);
    assert file[..HEADER_BYTES] == EncodeHeader(header) && file[HEADER_BYTES..] == body;
  }

  // ---------------------------------------------------------------- writing, then reading

  /** The entries that come back from payloads: those that decode and can still be answered from. */
  function Answerable(codec: Codec, payloads: seq<Bytes>): seq<Entry> {
    if payloads == [] then []
    else
      var rest := Answerable(codec, payloads[1..]);
      match codec.decode(payloads[0], |payloads| - 1)
      case Ok(entry) => if IsAnswerable(entry.1, codec.now) then [entry] + rest else rest
      case Err(_) => rest
  }

  /** The key digest of a payload read with `left` records to go, if it decodes. */
  function DigestAt(codec: Codec, payload: Bytes, left: nat): Option<Digest> {
    match codec.decode(payload, left)
    case Err(_) => None
    case Ok(entry) => match codec.digest(entry.0) { case Ok(digest) => Some(digest) case Err(_) => None }
  }

  /** The key digest of the `i`-th of the payloads that end a file. */
  function DigestOf(codec: Codec, payloads: seq<Bytes>, i: nat): Option<Digest>
    requires i < |payloads|
  {
    DigestAt(codec, payloads[i], |payloads| - 1 - i)
  }

  /** Every payload that decodes has a digest, and no two of them, nor any seen before, share one. */
  ghost predicate Distinct(codec: Codec, payloads: seq<Bytes>, seen: set<Digest>) {
    && (forall i: nat | i < |payloads| && codec.decode(payloads[i], |payloads| - 1 - i).Ok? ::
        DigestOf(codec, payloads, i).Some?)
    && (forall i: nat | i < |payloads| && DigestOf(codec, payloads, i).Some? ::
        DigestOf(codec, payloads, i).value !in seen)
    && (forall i: nat, j: nat | i < j < |payloads| && DigestOf(codec, payloads, i).Some? ::
        DigestOf(codec, payloads, i) != DigestOf(codec, payloads, j))
  }

  /** One frame of a body is read back whole. */
  lemma FrameBack(codec: Codec, cursor: Cursor, payload: Bytes, rest: Bytes)
    requires cursor.remaining > 0 && cursor.file == FrameBytes(payload) + rest && |payload| <= MAX_RECORD_BYTES
    ensures ReadFrame(codec, cursor) ==
      Counted(codec, cursor.(file := rest, remaining := cursor.remaining - 1), payload)
  {
    Powers();
    assert FrameBytes(payload) + rest == BigEndian(|payload|, 4) + (payload + rest);
    ReadNumberBack(|payload|, 4, payload + rest);
    ReadOctetsBack(payload, rest);
  }

  /** Reading a written body gives back exactly the entries that decode and are still answerable, in order. */
  lemma {:induction false} BodyReadsBack(codec: Codec, payloads: seq<Bytes>, cursor: Cursor, size: nat)
    requires FitsLimits(payloads) && cursor.file == Body(payloads) && cursor.remaining == |payloads| <= size
    requires Distinct(codec, payloads, cursor.seen)
    ensures Batch(FramesOf(codec), cursor, size).1 == Ok(Answerable(codec, payloads))
    decreases |payloads|
  {
    if payloads != [] {
      var rest := payloads[1..];
      FrameBack(codec, cursor, payloads[0], Body(rest));
      var (next, frame) := FramesOf(codec)(cursor);
      assert forall i | 0 <= i < |rest| :: rest[i] == payloads[i + 1];
      CountedKeepsDistinct(codec, payloads, cursor.(file := Body(rest), remaining := cursor.remaining - 1));
      BodyReadsBack(codec, rest, next, if frame.Delivered? then size - 1 else size);
    }
  }

  lemma CountedKeepsDistinct(codec: Codec, payloads: seq<Bytes>, cursor: Cursor)
    requires payloads != [] && Distinct(codec, payloads, cursor.seen) && cursor.remaining == |payloads| - 1
    ensures var (next, frame) := Counted(codec, cursor, payloads[0]);
      && next.file == cursor.file && next.remaining == cursor.remaining
      && Distinct(codec, payloads[1..], next.seen)
      && frame == match codec.decode(payloads[0], |payloads| - 1)
                  case Ok(entry) => if IsAnswerable(entry.1, codec.now) then Delivered(entry) else Skipped
                  case Err(_) => Skipped
  {
    var rest := payloads[1..];
    var seen := Counted(codec, cursor, payloads[0]).0.seen;
    assert codec.decode(payloads[0], |payloads| - 1 - 0).Ok? ==> DigestOf(codec, payloads, 0).Some?;
    forall i: nat | i < |rest|
      ensures DigestOf(codec, rest, i) == DigestOf(codec, payloads, i + 1)
      ensures codec.decode(rest[i], |rest| - 1 - i).Ok? ==> DigestOf(codec, rest, i).Some?
      ensures DigestOf(codec, rest, i).Some? ==> DigestOf(codec, rest, i).value !in seen
    {
      assert rest[i] == payloads[i + 1];
      assert codec.decode(payloads[i + 1], |payloads| - 1 - (i + 1)).Ok? ==> DigestOf(codec, payloads, i + 1).Some?;
      assert DigestOf(codec, payloads, 0).Some? ==> DigestOf(codec, payloads, 0) != DigestOf(codec, payloads, i + 1);
    }
  }

  function KeyDigest(hash: Hash, key: CacheKey): Result<Digest, CodecError> {
    var storageKey :- RecordCodec.EncodeKey(key);
    Ok(hash(storageKey))
  }

  function DigestsOf(hash: Hash): CacheKey -> Result<Digest, CodecError> {
    key => KeyDigest(hash, key)
  }

  /** The clocks of one pass over a file: one monotonic instant, and the wall clock as read for each record. */
  datatype Clocks = Clocks(now: Instant, wall: nat -> (nat, nat)) {
    function At(index: nat): RecordCodec.Clock {
      RecordCodec.Clock(now, wall(index).0, wall(index).1)
    }
  }

  function EncoderAt(hash: Hash, saved: Clocks): Encoder {
    Encoder((entry: Entry, count: nat) => RecordCodec.EncodeRecord(entry.0, entry.1, saved.At(count)),
            DigestsOf(hash), hash)
  }

  function CodecAt(parse: RecordCodec.Parser, hash: Hash, clocks: Clocks): Codec {
    Codec((payload: Bytes, left: nat) => RecordCodec.DecodeRecord(parse, payload, clocks.At(left)),
          DigestsOf(hash), clocks.now)
  }

  /** What the writer keeps: entries of the input with their payloads, digests new and pairwise different. */
  ghost predicate KeptOk(
    encoder: Encoder, entries: seq<Entry>, seen: set<Digest>, count: nat, written: seq<(Entry, Bytes)>)
  {
    && (forall i: nat | i < |written| ::
        && written[i].0 in entries && encoder.encode(written[i].0, count + i) == Ok(written[i].1)
        && encoder.digest(written[i].0.0).Ok? && encoder.digest(written[i].0.0).value !in seen)
    && (forall i, j | 0 <= i < j < |written| :: encoder.digest(written[i].0.0) != encoder.digest(written[j].0.0))
  }

  lemma {:induction false} WriterKeepsDistinctKeys(encoder: Encoder, entries: seq<Entry>, seen: set<Digest>, count: nat)
    requires Written(encoder, entries, seen, count).Ok?
    ensures KeptOk(encoder, entries, seen, count, Written(encoder, entries, seen, count).value)
    decreases |entries|
  {
    if entries != [] {
      var digest := encoder.digest(entries[0].0).value;
      var rest := entries[1..];
      assert forall e | e in rest :: e in entries;
      if digest in seen {
        WriterKeepsDistinctKeys(encoder, rest, seen, count);
      } else {
        WriterKeepsDistinctKeys(encoder, rest, seen + {digest}, count + 1);
        var written := Written(encoder, entries, seen, count).value;
        var later := Written(encoder, rest, seen + {digest}, count + 1).value;
        forall i: nat | i < |written|
          ensures encoder.encode(written[i].0, count + i) == Ok(written[i].1)
        {
          if i > 0 {
            var (entry, payload) := later[i - 1];
            assert written[i] == later[i - 1] && encoder.encode(entry, count + 1 + (i - 1)) == Ok(payload);
          }
        }
      }
    }
  }

  lemma {:induction false} WriterKeepsLimits(encoder: Encoder, entries: seq<Entry>, seen: set<Digest>, count: nat)
    requires Written(encoder, entries, seen, count).Ok?
    ensures var written := Written(encoder, entries, seen, count).value;
      && (written != [] ==> |written| + count <= MAX_RECORDS)
      && forall i | 0 <= i < |written| :: |written[i].1| <= MAX_RECORD_BYTES
    decreases |entries|
  {
    if entries != [] {
      var digest := encoder.digest(entries[0].0).value;
      if digest in seen {
        WriterKeepsLimits(encoder, entries[1..], seen, count);
      } else {
        WriterKeepsLimits(encoder, entries[1..], seen + {digest}, count + 1);
      }
    }
  }

  /** No key is lost: every entry has the digest of one that is written, or was seen before. */
  lemma {:induction false} WriterCoversEveryKey(encoder: Encoder, entries: seq<Entry>, seen: set<Digest>, count: nat,
      k: nat)
    requires Written(encoder, entries, seen, count).Ok? && k < |entries|
    ensures encoder.digest(entries[k].0).Ok?
    ensures var written := Written(encoder, entries, seen, count).value;
      || encoder.digest(entries[k].0).value in seen
      || exists i | 0 <= i < |written| :: encoder.digest(written[i].0.0) == encoder.digest(entries[k].0)
    decreases |entries|
  {
    var digest := encoder.digest(entries[0].0).value;
    var written := Written(encoder, entries, seen, count).value;
    if digest in seen {
      if k > 0 {
        WriterCoversEveryKey(encoder, entries[1..], seen, count, k - 1);
      }
    } else {
      assert encoder.digest(written[0].0.0).value == digest;
      if k > 0 {
        WriterCoversEveryKey(encoder, entries[1..], seen + {digest}, count + 1, k - 1);
        var rest := Written(encoder, entries[1..], seen + {digest}, count + 1).value;
        assert forall i | 0 <= i < |rest| :: written[i + 1] == rest[i];
      }
    }
  }

  /** The kept entries as they come back under other clocks, `count` records having been written before them: times
      restored, unanswerable ones left out. */
  function ComesBack(written: seq<(Entry, Bytes)>, saved: Clocks, count: nat, now: Clocks): seq<Entry> {
    if written == [] then []
    else
      var (key, record) := written[0].0;
      var restored := RecordCodec.Restored(record, saved.At(count), now.At(|written| - 1));
      var rest := ComesBack(written[1..], saved, count + 1, now);
      if restored.Some? && IsAnswerable(restored.value, now.now) then [(key, restored.value)] + rest else rest
  }

  ghost predicate AllValid(parse: RecordCodec.Parser, written: seq<(Entry, Bytes)>, saved: Clocks, count: nat) {
    forall i: nat | i < |written| ::
      && RecordCodec.Encodable(written[i].0.0, written[i].0.1) && RecordCodec.ValidRecord(parse, written[i].0.1)
      && RecordCodec.EncodeRecord(written[i].0.0, written[i].0.1, saved.At(count + i)) == Ok(written[i].1)
  }

  /** Every payload decodes to its entry with restored times. */
  ghost predicate Decodes(codec: Codec, written: seq<(Entry, Bytes)>, saved: Clocks, count: nat, now: Clocks) {
    && codec.now == now.now
    && forall i: nat | i < |written| ::
        codec.decode(written[i].1, |written| - 1 - i) ==
        RestoredEntry(written[i].0, saved.At(count + i), now.At(|written| - 1 - i))
  }

  function RestoredEntry(entry: Entry, saved: RecordCodec.Clock, now: RecordCodec.Clock): Result<Entry, CodecError> {
    match RecordCodec.Restored(entry.1, saved, now)
    case Some(restored) => Ok((entry.0, restored))
    case None => Err(Corrupt)
  }

  lemma WrittenDecodes(
    parse: RecordCodec.Parser, hash: Hash, written: seq<(Entry, Bytes)>, saved: Clocks, count: nat, now: Clocks)
    requires AllValid(parse, written, saved, count)
    ensures Decodes(CodecAt(parse, hash, now), written, saved, count, now)
  {
    forall i: nat | i < |written|
      ensures CodecAt(parse, hash, now).decode(written[i].1, |written| - 1 - i) ==
        RestoredEntry(written[i].0, saved.At(count + i), now.At(|written| - 1 - i))
    {
      RecordCodec.RecordRoundTrip(
        parse, written[i].0.0, written[i].0.1, saved.At(count + i), now.At(|written| - 1 - i));
    }
  }

  lemma DecodesTail(codec: Codec, written: seq<(Entry, Bytes)>, saved: Clocks, count: nat, now: Clocks)
    requires written != [] && Decodes(codec, written, saved, count, now)
    ensures Decodes(codec, written[1..], saved, count + 1, now)
  {
    var rest := written[1..];
    forall i: nat | i < |rest|
      ensures codec.decode(rest[i].1, |rest| - 1 - i) ==
        RestoredEntry(rest[i].0, saved.At(count + 1 + i), now.At(|rest| - 1 - i))
    {
      var next := i + 1;
      assert rest[i] == written[next] && count + 1 + i == count + next && |rest| - 1 - i == |written| - 1 - next;
    }
  }

  lemma {:induction false} AnswerableComesBack(
    codec: Codec, written: seq<(Entry, Bytes)>, saved: Clocks, count: nat, now: Clocks)
    requires Decodes(codec, written, saved, count, now)
    ensures Answerable(codec, Payloads(written)) == ComesBack(written, saved, count, now)
    decreases |written|
  {
    if written != [] {
      assert Payloads(written)[1..] == Payloads(written[1..]);
      DecodesTail(codec, written, saved, count, now);
      AnswerableComesBack(codec, written[1..], saved, count + 1, now);
      assert codec.decode(written[0].1, |written| - 1 - 0) ==
        RestoredEntry(written[0].0, saved.At(count + 0), now.At(|written| - 1 - 0));
    }
  }

  lemma DigestOfDecoded(codec: Codec, payloads: seq<Bytes>, i: nat, key: CacheKey)
    requires i < |payloads| && codec.digest(key).Ok?
    requires codec.decode(payloads[i], |payloads| - 1 - i).Ok? ==>
      codec.decode(payloads[i], |payloads| - 1 - i).value.0 == key
    ensures DigestOf(codec, payloads, i) ==
      if codec.decode(payloads[i], |payloads| - 1 - i).Ok? then Some(codec.digest(key).value) else None
  {
  }

  /** So the payloads of a written file have distinct digests. */
  lemma KeptAreDistinct(
    codec: Codec, encoder: Encoder, entries: seq<Entry>, written: seq<(Entry, Bytes)>, saved: Clocks, now: Clocks)
    requires KeptOk(encoder, entries, {}, 0, written) && codec.digest == encoder.digest
    requires Decodes(codec, written, saved, 0, now)
    ensures Distinct(codec, Payloads(written), {})
  {
    var payloads := Payloads(written);
    forall i: nat | i < |payloads|
      ensures var digest := DigestOf(codec, payloads, i);
        digest == None || digest == Some(codec.digest(written[i].0.0).value)
      ensures codec.decode(payloads[i], |payloads| - 1 - i).Ok? ==> DigestOf(codec, payloads, i).Some?
    {
      DigestOfDecoded(codec, payloads, i, written[i].0.0);
    }
    forall i: nat, j: nat | i < j < |payloads| && DigestOf(codec, payloads, i).Some?
      ensures DigestOf(codec, payloads, i) != DigestOf(codec, payloads, j)
    {
      assert encoder.digest(written[i].0.0) != encoder.digest(written[j].0.0);
    }
  }

  /** A snapshot written, then opened and read in any batches with room for its records, gives back the first entry
      of every key digest, in order, with the times of the new clocks, as far as it can still be answered from;
      the counts add up to the header. */
  lemma SnapshotRoundTrip(
    parse: RecordCodec.Parser, hash: Hash, entries: seq<Entry>, written: seq<(Entry, Bytes)>, generatedAt: U64,
    saved: Clocks, now: Clocks, limit: nat, sizes: seq<nat>)
    requires forall k | 0 <= k < |entries| ::
      RecordCodec.Encodable(entries[k].0, entries[k].1) && RecordCodec.ValidRecord(parse, entries[k].1)
    requires Written(EncoderAt(hash, saved), entries, {}, 0) == Ok(written)
    requires HEADER_BYTES + |Body(Payloads(written))| <= limit
    requires Sum(sizes) >= |written|
    ensures |Body(Payloads(written))| <= U64_MAX
    ensures var file := FileBytes(hash, generatedAt, Payloads(written));
      var header := Open(hash, file, limit);
      && header.Ok? && |file| >= HEADER_BYTES
      && var start := Cursor(file[HEADER_BYTES..], header.value.recordCount, Summary(0, 0, 0, 0), {});
         var (last, records) := Batches(FramesOf(CodecAt(parse, hash, now)), start, sizes);
         && records == Ok(ComesBack(written, saved, 0, now))
         && last.remaining == 0 && Total(last.summary) == header.value.recordCount
  {
    WriterKeepsDistinctKeys(EncoderAt(hash, saved), entries, {}, 0);
    WrittenFits(EncoderAt(hash, saved), entries);
    WrittenIsValid(parse, hash, entries, written, saved);
    WrittenFileOpens(hash, generatedAt, Payloads(written), limit);
    ReadsWritten(parse, hash, entries, written, saved, now, sizes);
  }

  lemma WrittenFits(encoder: Encoder, entries: seq<Entry>)
    requires Written(encoder, entries, {}, 0).Ok?
    ensures var payloads := Payloads(Written(encoder, entries, {}, 0).value);
      FitsLimits(payloads) && |Body(payloads)| <= U64_MAX
  {
    WriterKeepsLimits(encoder, entries, {}, 0);
    BodySize(Payloads(Written(encoder, entries, {}, 0).value));
  }

  lemma WrittenIsValid(
    parse: RecordCodec.Parser, hash: Hash, entries: seq<Entry>, written: seq<(Entry, Bytes)>, saved: Clocks)
    requires forall k | 0 <= k < |entries| ::
      RecordCodec.Encodable(entries[k].0, entries[k].1) && RecordCodec.ValidRecord(parse, entries[k].1)
    requires KeptOk(EncoderAt(hash, saved), entries, {}, 0, written)
    ensures AllValid(parse, written, saved, 0)
  {
    forall i: nat | i < |written|
      ensures RecordCodec.Encodable(written[i].0.0, written[i].0.1) && RecordCodec.ValidRecord(parse, written[i].0.1)
      ensures RecordCodec.EncodeRecord(written[i].0.0, written[i].0.1, saved.At(0 + i)) == Ok(written[i].1)
    {
      assert written[i].0 in entries;
      assert EncoderAt(hash, saved).encode(written[i].0, 0 + i) == Ok(written[i].1);
    }
  }

  lemma ReadsWritten(
    parse: RecordCodec.Parser, hash: Hash, entries: seq<Entry>, written: seq<(Entry, Bytes)>, saved: Clocks,
    now: Clocks, sizes: seq<nat>)
    requires AllValid(parse, written, saved, 0) && KeptOk(EncoderAt(hash, saved), entries, {}, 0, written)
    requires FitsLimits(Payloads(written))
    requires Sum(sizes) >= |written|
    ensures var start := Cursor(Body(Payloads(written)), |written|, Summary(0, 0, 0, 0), {});
      var (last, records) := Batches(FramesOf(CodecAt(parse, hash, now)), start, sizes);
      && records == Ok(ComesBack(written, saved, 0, now))
      && last.remaining == 0 && Total(last.summary) == |written|
  {
    var codec := CodecAt(parse, hash, now);
    var read, start := FramesOf(codec), Cursor(Body(Payloads(written)), |written|, Summary(0, 0, 0, 0), {});
    WrittenDecodes(parse, hash, written, saved, 0, now);
    KeptAreDistinct(codec, EncoderAt(hash, saved), entries, written, saved, now);
    BodyReadsBack(codec, Payloads(written), start, |written|);
    AnswerableComesBack(codec, written, saved, 0, now);
    BatchSizesDoNotMatter(read, start, sizes);
    EveryRecordIsCountedOnce(codec, start, |written|);
    LargeBatchCompletes(read, start, |written|);
  }

  // ---------------------------------------------------------------- when writing succeeds

  /** An entry the writer can digest and encode within the size limit, whenever it comes to it. */
  ghost predicate Encodes(encoder: Encoder, entry: Entry) {
    && encoder.digest(entry.0).Ok?
    && forall count: nat :: encoder.encode(entry, count).Ok? && |encoder.encode(entry, count).value| <= MAX_RECORD_BYTES
  }

  /** The key digests of some entries. */
  function DigestSet(encoder: Encoder, entries: seq<Entry>): set<Digest> {
    if entries == [] then {}
    else
      var digest := encoder.digest(entries[0].0);
      (if digest.Ok? then {digest.value} else {}) + DigestSet(encoder, entries[1..])
  }

  lemma {:induction false} WritesWhatFits(encoder: Encoder, entries: seq<Entry>, seen: set<Digest>, count: nat)
    requires forall i | 0 <= i < |entries| :: Encodes(encoder, entries[i])
    requires count <= MAX_RECORDS
    ensures var added := |DigestSet(encoder, entries) - seen|;
      match Written(encoder, entries, seen, count)
      case Ok(written) => count + added <= MAX_RECORDS && |written| == added
      case Err(error) => count + added > MAX_RECORDS && error == ExhaustedFile
    decreases |entries|
  {
    if entries == [] {
      assert DigestSet(encoder, entries) - seen == {};
    } else {
      assert Encodes(encoder, entries[0]);
      var digest, rest := encoder.digest(entries[0].0).value, entries[1..];
      var all, later := DigestSet(encoder, entries), DigestSet(encoder, rest);
      if digest in seen {
        assert all - seen == later - seen;
        WritesWhatFits(encoder, rest, seen, count);
      } else {
        assert all - seen == (later - (seen + {digest})) + {digest};
        if count < MAX_RECORDS {
          WritesWhatFits(encoder, rest, seen + {digest}, count + 1);
        }
      }
    }
  }

  /** Entries within the limits of the format are written exactly when their keys have no more digests than a file may
      have records, and then one record for each digest. */
  lemma WrittenExactlyWhenItFits(hash: Hash, saved: Clocks, entries: seq<Entry>)
    requires forall k | 0 <= k < |entries| :: RecordCodec.Encodable(entries[k].0, entries[k].1)
    ensures var encoder := EncoderAt(hash, saved);
      match Written(encoder, entries, {}, 0)
      case Ok(written) => |DigestSet(encoder, entries)| <= MAX_RECORDS && |written| == |DigestSet(encoder, entries)|
      case Err(error) => |DigestSet(encoder, entries)| > MAX_RECORDS && error == ExhaustedFile
  {
    var encoder := EncoderAt(hash, saved);
    forall i | 0 <= i < |entries| ensures Encodes(encoder, entries[i]) {
      EncodableEncodes(hash, saved, entries[i]);
    }
    WritesWhatFits(encoder, entries, {}, 0);
    assert DigestSet(encoder, entries) - {} == DigestSet(encoder, entries);
  }

  lemma EncodableEncodes(hash: Hash, saved: Clocks, entry: Entry)
    requires RecordCodec.Encodable(entry.0, entry.1)
    ensures Encodes(EncoderAt(hash, saved), entry)
  {
    var encoder := EncoderAt(hash, saved);
    RecordCodec.KeyBack(entry.0, []);
    forall count: nat
      ensures encoder.encode(entry, count).Ok? && |encoder.encode(entry, count).value| <= MAX_RECORD_BYTES
    {
      RecordCodec.EncodedSize(entry.0, entry.1, saved.At(count));
    }
  }

  // ---------------------------------------------------------------- what a record counts as

  datatype Class = LoadedRecord | ExpiredRecord | CorruptRecord | IncompatibleRecord

  /** Every payload that decodes has a digest. */
  ghost predicate Digestible(codec: Codec, payloads: seq<Bytes>) {
    forall i: nat | i < |payloads| && codec.decode(payloads[i], |payloads| - 1 - i).Ok? ::
      DigestOf(codec, payloads, i).Some?
  }

  /** A payload that decodes to a key whose digest was seen before the file, or that an earlier payload decodes to. */
  predicate Repeats(codec: Codec, payloads: seq<Bytes>, seen: set<Digest>, i: nat)
    requires i < |payloads|
  {
    && DigestOf(codec, payloads, i).Some?
    && (DigestOf(codec, payloads, i).value in seen
        || exists j: nat | j < i :: DigestOf(codec, payloads, j) == DigestOf(codec, payloads, i))
  }

  /** What the `i`-th payload counts as: of another version; damaged, or of a key that came before; past its use; or
      loaded. */
  function ClassAt(codec: Codec, payloads: seq<Bytes>, seen: set<Digest>, i: nat): Class
    requires i < |payloads|
  {
    match codec.decode(payloads[i], |payloads| - 1 - i)
    case Err(Incompatible) => IncompatibleRecord
    case Err(_) => CorruptRecord
    case Ok(entry) =>
      if Repeats(codec, payloads, seen, i) then CorruptRecord
      else if IsAnswerable(entry.1, codec.now) then LoadedRecord
      else ExpiredRecord
  }

  /** How many of the first `count` payloads are of a class. */
  function ClassCount(codec: Codec, payloads: seq<Bytes>, seen: set<Digest>, class_: Class, count: nat): nat
    requires count <= |payloads|
  {
    if count == 0 then 0
    else
      ClassCount(codec, payloads, seen, class_, count - 1)
      + if ClassAt(codec, payloads, seen, count - 1) == class_ then 1 else 0
  }

  /** The entry of the `i`-th payload, if it is loaded. */
  function LoadedAt(codec: Codec, payloads: seq<Bytes>, seen: set<Digest>, i: nat): seq<Entry>
    requires i < |payloads|
  {
    var decoded := codec.decode(payloads[i], |payloads| - 1 - i);
    if ClassAt(codec, payloads, seen, i) == LoadedRecord && decoded.Ok? then [decoded.value] else []
  }

  /** The entries of the loaded ones among the first `count` payloads, in order. */
  function LoadedEntries(codec: Codec, payloads: seq<Bytes>, seen: set<Digest>, count: nat): seq<Entry>
    requires count <= |payloads|
  {
    if count == 0 then []
    else LoadedEntries(codec, payloads, seen, count - 1) + LoadedAt(codec, payloads, seen, count - 1)
  }

  /** The digests seen once the first payload was read. */
  function SeenAfterFirst(codec: Codec, payloads: seq<Bytes>, seen: set<Digest>): set<Digest>
    requires payloads != []
  {
    if DigestOf(codec, payloads, 0).Some? then seen + {DigestOf(codec, payloads, 0).value} else seen
  }

  lemma DigestShifts(codec: Codec, payloads: seq<Bytes>, i: nat)
    requires i + 1 < |payloads|
    ensures DigestOf(codec, payloads[1..], i) == DigestOf(codec, payloads, i + 1)
  {
    assert payloads[1..][i] == payloads[i + 1];
  }

  lemma RepeatsShifts(codec: Codec, payloads: seq<Bytes>, seen: set<Digest>, i: nat)
    requires i + 1 < |payloads|
    ensures Repeats(codec, payloads, seen, i + 1)
      <==> Repeats(codec, payloads[1..], SeenAfterFirst(codec, payloads, seen), i)
  {
    var rest, later := payloads[1..], SeenAfterFirst(codec, payloads, seen);
    DigestShifts(codec, payloads, i);
    forall j: nat | j < i ensures DigestOf(codec, rest, j) == DigestOf(codec, payloads, j + 1) {
      DigestShifts(codec, payloads, j);
    }
    if j: nat :| j < i + 1 && DigestOf(codec, payloads, j) == DigestOf(codec, payloads, i + 1) {
      assert j == 0 || DigestOf(codec, rest, j - 1) == DigestOf(codec, rest, i);
    }
    if j: nat :| j < i && DigestOf(codec, rest, j) == DigestOf(codec, rest, i) {
      assert DigestOf(codec, payloads, j + 1) == DigestOf(codec, payloads, i + 1);
    }
  }

  lemma ClassShifts(codec: Codec, payloads: seq<Bytes>, seen: set<Digest>, i: nat)
    requires i + 1 < |payloads|
    ensures ClassAt(codec, payloads, seen, i + 1)
      == ClassAt(codec, payloads[1..], SeenAfterFirst(codec, payloads, seen), i)
  {
    RepeatsShifts(codec, payloads, seen, i);
    assert payloads[1..][i] == payloads[i + 1];
  }

  lemma {:induction false} CountShifts(codec: Codec, payloads: seq<Bytes>, seen: set<Digest>, class_: Class, count: nat)
    requires count < |payloads|
    ensures ClassCount(codec, payloads, seen, class_, count + 1) ==
      (if ClassAt(codec, payloads, seen, 0) == class_ then 1 else 0)
      + ClassCount(codec, payloads[1..], SeenAfterFirst(codec, payloads, seen), class_, count)
    decreases count
  {
    if count > 0 {
      CountShifts(codec, payloads, seen, class_, count - 1);
      ClassShifts(codec, payloads, seen, count - 1);
    }
  }

  lemma LoadedAtShifts(codec: Codec, payloads: seq<Bytes>, seen: set<Digest>, i: nat)
    requires i + 1 < |payloads|
    ensures LoadedAt(codec, payloads, seen, i + 1)
      == LoadedAt(codec, payloads[1..], SeenAfterFirst(codec, payloads, seen), i)
  {
    ClassShifts(codec, payloads, seen, i);
    assert payloads[1..][i] == payloads[i + 1];
  }

  lemma {:induction false} LoadedShifts(codec: Codec, payloads: seq<Bytes>, seen: set<Digest>, count: nat)
    requires count < |payloads|
    ensures LoadedEntries(codec, payloads, seen, count + 1) ==
      LoadedAt(codec, payloads, seen, 0)
      + LoadedEntries(codec, payloads[1..], SeenAfterFirst(codec, payloads, seen), count)
    decreases count
  {
    var first, later := LoadedAt(codec, payloads, seen, 0), SeenAfterFirst(codec, payloads, seen);
    if count == 0 {
      assert LoadedEntries(codec, payloads, seen, 1) == [] + first == first + [];
    } else {
      LoadedShifts(codec, payloads, seen, count - 1);
      LoadedAtShifts(codec, payloads, seen, count - 1);
      var middle, last := LoadedEntries(codec, payloads[1..], later, count - 1), LoadedAt(codec, payloads, seen, count);
      assert first + middle + last == first + (middle + last);
    }
  }

  /** One more record of a class. */
  function Tally(summary: Summary, class_: Class): Summary {
    match class_
    case LoadedRecord => summary.(loaded := SaturatingAdd(summary.loaded, 1))
    case ExpiredRecord => summary.(expired := SaturatingAdd(summary.expired, 1))
    case CorruptRecord => summary.(corrupt := SaturatingAdd(summary.corrupt, 1))
    case IncompatibleRecord => summary.(incompatible := SaturatingAdd(summary.incompatible, 1))
  }

  lemma FirstIsClassified(codec: Codec, payloads: seq<Bytes>, cursor: Cursor)
    requires payloads != [] && Digestible(codec, payloads) && cursor.remaining == |payloads| - 1
    ensures var (next, frame) := Counted(codec, cursor, payloads[0]);
      && next.file == cursor.file && next.remaining == cursor.remaining
      && next.summary == Tally(cursor.summary, ClassAt(codec, payloads, cursor.seen, 0))
      && next.seen == SeenAfterFirst(codec, payloads, cursor.seen)
      && frame == if ClassAt(codec, payloads, cursor.seen, 0) == LoadedRecord
                  then Delivered(codec.decode(payloads[0], |payloads| - 1).value) else Skipped
  {
    var digest := DigestOf(codec, payloads, 0);
    assert codec.decode(payloads[0], |payloads| - 1 - 0).Ok? ==> digest.Some?;
    assert digest.Some? && digest.value in cursor.seen ==> cursor.seen + {digest.value} == cursor.seen;
  }

  function Tallied(codec: Codec, payloads: seq<Bytes>, cursor: Cursor): Summary
    requires Total(cursor.summary) + |payloads| <= U64_MAX
  {
    CountsFit(codec, payloads, cursor.seen, |payloads|);
    Summary(cursor.summary.loaded + ClassCount(codec, payloads, cursor.seen, LoadedRecord, |payloads|),
            cursor.summary.expired + ClassCount(codec, payloads, cursor.seen, ExpiredRecord, |payloads|),
            cursor.summary.corrupt + ClassCount(codec, payloads, cursor.seen, CorruptRecord, |payloads|),
            cursor.summary.incompatible + ClassCount(codec, payloads, cursor.seen, IncompatibleRecord, |payloads|))
  }

  lemma {:induction false} CountsFit(codec: Codec, payloads: seq<Bytes>, seen: set<Digest>, count: nat)
    requires count <= |payloads|
    ensures ClassCount(codec, payloads, seen, LoadedRecord, count)
      + ClassCount(codec, payloads, seen, ExpiredRecord, count)
      + ClassCount(codec, payloads, seen, CorruptRecord, count)
      + ClassCount(codec, payloads, seen, IncompatibleRecord, count) == count
  {
    if count > 0 {
      CountsFit(codec, payloads, seen, count - 1);
    }
  }

  lemma TalliedNext(codec: Codec, payloads: seq<Bytes>, cursor: Cursor, next: Cursor)
    requires payloads != [] && Total(cursor.summary) + |payloads| <= U64_MAX
    requires next.summary == Tally(cursor.summary, ClassAt(codec, payloads, cursor.seen, 0))
    requires next.seen == SeenAfterFirst(codec, payloads, cursor.seen)
    ensures Total(next.summary) + |payloads[1..]| <= U64_MAX
    ensures Tallied(codec, payloads, cursor) == Tallied(codec, payloads[1..], next)
  {
    var count := |payloads| - 1;
    CountShifts(codec, payloads, cursor.seen, LoadedRecord, count);
    CountShifts(codec, payloads, cursor.seen, ExpiredRecord, count);
    CountShifts(codec, payloads, cursor.seen, CorruptRecord, count);
    CountShifts(codec, payloads, cursor.seen, IncompatibleRecord, count);
  }

  /** A cursor in front of the payloads that end a file. */
  ghost predicate InFrontOf(codec: Codec, payloads: seq<Bytes>, cursor: Cursor) {
    && FitsLimits(payloads) && cursor.file == Body(payloads) && cursor.remaining == |payloads|
    && Digestible(codec, payloads)
  }

  /** One turn reads the first payload and counts it in its class. */
  ghost predicate ReadsFirst(read: FrameReader, codec: Codec, payloads: seq<Bytes>, cursor: Cursor)
    requires payloads != []
  {
    var (next, frame) := read(cursor);
    && next.file == Body(payloads[1..]) && next.remaining == |payloads| - 1
    && next.summary == Tally(cursor.summary, ClassAt(codec, payloads, cursor.seen, 0))
    && next.seen == SeenAfterFirst(codec, payloads, cursor.seen)
    && frame == FrameOf(LoadedAt(codec, payloads, cursor.seen, 0))
  }

  ghost predicate ReadsBodies(read: FrameReader, codec: Codec) {
    forall payloads: seq<Bytes>, cursor: Cursor | payloads != [] && InFrontOf(codec, payloads, cursor) ::
      ReadsFirst(read, codec, payloads, cursor)
  }

  lemma FramesReadBodies(codec: Codec)
    ensures ReadsBodies(FramesOf(codec), codec)
  {
    forall payloads: seq<Bytes>, cursor: Cursor | payloads != [] && InFrontOf(codec, payloads, cursor)
      ensures ReadsFirst(FramesOf(codec), codec, payloads, cursor)
    {
      var rest := payloads[1..];
      FrameBack(codec, cursor, payloads[0], Body(rest));
      FirstIsClassified(codec, payloads, cursor.(file := Body(rest), remaining := cursor.remaining - 1));
    }
  }

  /** What a frame delivers. */
  function FrameOf(entries: seq<Entry>): Frame {
    if entries != [] then Delivered(entries[0]) else Skipped
  }

  lemma BatchStep(read: FrameReader, cursor: Cursor, size: nat, first: seq<Entry>)
    requires var (next, frame) := read(cursor);
      && 0 < size && next.remaining < cursor.remaining
      && ((frame.Skipped? && first == []) || (frame.Delivered? && first == [frame.entry]))
    ensures Batch(read, cursor, size) == Prefixed(first, Batch(read, read(cursor).0, size - |first|))
  {
    PrefixedTwice([], [], Batch(read, read(cursor).0, size));
  }

  /** What a batch leaves unread, what it has counted, and what it delivers. */
  function ReadOff(read: FrameReader, cursor: Cursor, size: nat): (nat, Summary, Result<seq<Entry>, SnapshotError>) {
    var (last, records) := Batch(read, cursor, size);
    (last.remaining, last.summary, records)
  }

  /** Nothing unread, the tally of all payloads, and the loaded ones. */
  function Classified(codec: Codec, payloads: seq<Bytes>, cursor: Cursor)
    : (nat, Summary, Result<seq<Entry>, SnapshotError>)
    requires Total(cursor.summary) + |payloads| <= U64_MAX
  {
    (0, Tallied(codec, payloads, cursor), Ok(LoadedEntries(codec, payloads, cursor.seen, |payloads|)))
  }

  lemma ClassifiedStep(
    read: FrameReader, codec: Codec, payloads: seq<Bytes>, cursor: Cursor, next: Cursor, size: nat, first: seq<Entry>)
    requires payloads != [] && Total(cursor.summary) + |payloads| <= U64_MAX && |first| <= size
    requires Total(next.summary) + |payloads[1..]| <= U64_MAX
    requires Batch(read, cursor, size) == Prefixed(first, Batch(read, next, size - |first|))
    requires Tallied(codec, payloads, cursor) == Tallied(codec, payloads[1..], next)
    requires LoadedEntries(codec, payloads, cursor.seen, |payloads|)
      == first + LoadedEntries(codec, payloads[1..], next.seen, |payloads| - 1)
    requires ReadOff(read, next, size - |first|) == Classified(codec, payloads[1..], next)
    ensures ReadOff(read, cursor, size) == Classified(codec, payloads, cursor)
  {
  }

  /** Reading on after the first payload. */
  lemma TakeFirst(read: FrameReader, codec: Codec, payloads: seq<Bytes>, cursor: Cursor, size: nat)
    returns (next: Cursor, first: seq<Entry>)
    requires ReadsBodies(read, codec) && payloads != [] && InFrontOf(codec, payloads, cursor) && |payloads| <= size
    ensures InFrontOf(codec, payloads[1..], next) && |first| <= 1
    ensures next.summary == Tally(cursor.summary, ClassAt(codec, payloads, cursor.seen, 0))
    ensures next.seen == SeenAfterFirst(codec, payloads, cursor.seen)
    ensures first == LoadedAt(codec, payloads, cursor.seen, 0)
    ensures Batch(read, cursor, size) == Prefixed(first, Batch(read, next, size - |first|))
  {
    next, first := read(cursor).0, LoadedAt(codec, payloads, cursor.seen, 0);
    assert ReadsFirst(read, codec, payloads, cursor);
    BatchStep(read, cursor, size, first);
    DigestibleTail(codec, payloads);
  }

  lemma NothingIsClassified(read: FrameReader, codec: Codec, cursor: Cursor, size: nat)
    requires cursor.remaining == 0 && Total(cursor.summary) <= U64_MAX
    ensures ReadOff(read, cursor, size) == Classified(codec, [], cursor)
  {
  }

  /** One payload in front of a body that is classified. */
  lemma ClassifiedFront(
    read: FrameReader, codec: Codec, payloads: seq<Bytes>, cursor: Cursor, next: Cursor, size: nat, first: seq<Entry>)
    requires payloads != [] && Total(cursor.summary) + |payloads| <= U64_MAX && |first| <= size
    requires next.summary == Tally(cursor.summary, ClassAt(codec, payloads, cursor.seen, 0))
    requires next.seen == SeenAfterFirst(codec, payloads, cursor.seen)
    requires first == LoadedAt(codec, payloads, cursor.seen, 0)
    requires Batch(read, cursor, size) == Prefixed(first, Batch(read, next, size - |first|))
    ensures Total(next.summary) + |payloads[1..]| <= U64_MAX
    ensures ReadOff(read, next, size - |first|) == Classified(codec, payloads[1..], next) ==>
      ReadOff(read, cursor, size) == Classified(codec, payloads, cursor)
  {
    TalliedNext(codec, payloads, cursor, next);
    LoadedShifts(codec, payloads, cursor.seen, |payloads| - 1);
    if ReadOff(read, next, size - |first|) == Classified(codec, payloads[1..], next) {
      ClassifiedStep(read, codec, payloads, cursor, next, size, first);
    }
  }

  lemma {:induction false} BodyIsClassified(
    read: FrameReader, codec: Codec, payloads: seq<Bytes>, cursor: Cursor, size: nat)
    requires ReadsBodies(read, codec) && InFrontOf(codec, payloads, cursor) && |payloads| <= size
    requires Total(cursor.summary) + |payloads| <= U64_MAX
    ensures ReadOff(read, cursor, size) == Classified(codec, payloads, cursor)
    decreases |payloads|
  {
    if payloads == [] {
      NothingIsClassified(read, codec, cursor, size);
    } else {
      var next, first := TakeFirst(read, codec, payloads, cursor, size);
      ClassifiedFront(read, codec, payloads, cursor, next, size, first);
      BodyIsClassified(read, codec, payloads[1..], next, size - |first|);
    }
  }

  /** Reading any body to its end in any batches, repeated keys included, counts every record in its class and delivers
      exactly the loaded ones, in order. */
  lemma RecordsAreClassified(codec: Codec, payloads: seq<Bytes>, sizes: seq<nat>)
    requires FitsLimits(payloads) && Digestible(codec, payloads) && Sum(sizes) >= |payloads|
    ensures var start := Cursor(Body(payloads), |payloads|, Summary(0, 0, 0, 0), {});
      var (last, records) := Batches(FramesOf(codec), start, sizes);
      && records == Ok(LoadedEntries(codec, payloads, {}, |payloads|))
      && last.remaining == 0 && last.summary == Tallied(codec, payloads, start)
  {
    var start := Cursor(Body(payloads), |payloads|, Summary(0, 0, 0, 0), {});
    FramesReadBodies(codec);
    BodyIsClassified(FramesOf(codec), codec, payloads, start, |payloads|);
    BatchSizesDoNotMatter(FramesOf(codec), start, sizes);
  }

  lemma DigestibleTail(codec: Codec, payloads: seq<Bytes>)
    requires payloads != [] && Digestible(codec, payloads) && FitsLimits(payloads)
    ensures Digestible(codec, payloads[1..]) && FitsLimits(payloads[1..])
  {
    var rest := payloads[1..];
    forall i: nat | i < |rest| && codec.decode(rest[i], |rest| - 1 - i).Ok?
      ensures DigestOf(codec, rest, i).Some?
    {
      assert rest[i] == payloads[i + 1] && |rest| - 1 - i == |payloads| - 1 - (i + 1);
      DigestShifts(codec, payloads, i);
      assert codec.decode(payloads[i + 1], |payloads| - 1 - (i + 1)).Ok?;
    }
  }

  /** A frame cannot be read exactly when its length or some of its octets are missing, its length is over the limit, or
      the key of a record that decodes cannot be digested; the limit is tested before the octets. */
  lemma UnreadableFrames(codec: Codec, cursor: Cursor)
    requires cursor.remaining > 0
    ensures var frame, file := ReadFrame(codec, cursor).1, cursor.file;
      && (|file| < 4 ==> frame == Unreadable(Io))
      && (|file| >= 4 && FromBigEndian(file[..4]) > MAX_RECORD_BYTES ==> frame == Unreadable(CorruptFile))
      && (|file| >= 4 && FromBigEndian(file[..4]) <= MAX_RECORD_BYTES && |file| < 4 + FromBigEndian(file[..4]) ==>
          frame == Unreadable(Io))
      && (|file| >= 4 && FromBigEndian(file[..4]) <= MAX_RECORD_BYTES && |file| >= 4 + FromBigEndian(file[..4]) ==>
          var payload := file[4..4 + FromBigEndian(file[..4])];
          var decoded := codec.decode(payload, cursor.remaining - 1);
          frame.Unreadable? <==> decoded.Ok? && codec.digest(decoded.value.0).Err?)
  {
    if |cursor.file| >= 4 && |cursor.file| >= 4 + FromBigEndian(cursor.file[..4]) {
      var length := FromBigEndian(cursor.file[..4]);
      assert cursor.file[4..][..length] == cursor.file[4..4 + length];
    }
  }
}
