/** The canonical encoding of a cache record, shared by every snapshot file.

    The DNS library is a parameter: `parse` gives the cache class and the canonical wire of a response message the
    decoder accepts, or nothing. A clock gives the monotonic instant and the wall clock read for each time field. */
module RecordCodec {
  import opened Basics
  import opened ByteCodec
  import opened CachePort
  import opened Lifetime
  import Admission

  const MAX_COMPONENT_BYTES: nat := 64 * 1024
  const MAX_UPSTREAM_ID_BYTES: nat := 128
  const MAX_DNS_WIRE_BYTES: nat := 65_535
  const CACHE_KEY_FORMAT_VERSION: nat := 2

  type Parser = Bytes -> Option<(CacheResponseClass, Bytes)>

  datatype Clock = Clock(now: Instant, wallExpires: nat, wallStale: nat)

  // ---------------------------------------------------------------- identifiers

  predicate IdOctet(octet: Byte, extra: Byte) {
    || ('0' as nat <= octet <= '9' as nat) || ('A' as nat <= octet <= 'Z' as nat) || ('a' as nat <= octet <= 'z' as nat)
    || octet == '-' as nat || octet == '_' as nat || octet == '.' as nat || octet == extra
  }

  predicate ValidStrategyId(id: Bytes) {
    1 <= |id| <= 64 && forall i | 0 <= i < |id| :: IdOctet(id[i], '.' as nat)
  }

  predicate ValidUpstreamId(id: Bytes) {
    1 <= |id| <= 128 && forall i | 0 <= i < |id| :: IdOctet(id[i], '!' as nat)
  }

  predicate ValidNamespace(namespace: CacheNamespace) {
    match namespace
    case Global => true
    case Strategy(strategy) => ValidStrategyId(strategy)
    case ClientStrategy(digest, strategy) => |digest| == 32 && ValidStrategyId(strategy)
  }

  // ---------------------------------------------------------------- keys

  function EncodeNamespace(namespace: CacheNamespace, maximum: nat): Result<Bytes, CodecError> {
    match namespace
    case Global => Ok([0])
    case Strategy(strategy) =>
      var id :- PutBytes(strategy, maximum);
      Ok([1] + id)
    case ClientStrategy(digest, strategy) =>
      var id :- PutBytes(strategy, maximum);
      Ok([2] + digest + id)
  }

  function DecodeStrategy(bytes: Bytes): Parsed<Bytes> {
    var (strategy, rest) :- ReadBytes(bytes, MAX_COMPONENT_BYTES);
    if ValidStrategyId(strategy) then Ok((strategy, rest)) else Err(Corrupt)
  }

  function DecodeNamespace(bytes: Bytes): Parsed<CacheNamespace> {
    var (tag, rest) :- ReadByte(bytes);
    if tag == 0 then Ok((Global, rest))
    else if tag == 1 then
      var (strategy, rest) :- DecodeStrategy(rest);
      Ok((Strategy(strategy), rest))
    else if tag == 2 then
      var (digest, rest) :- ReadOctets(rest, 32);
      var (strategy, rest) :- DecodeStrategy(rest);
      Ok((ClientStrategy(digest, strategy), rest))
    else Err(Corrupt)
  }

  /** `encode_storage_key`, and the start of every record. */
  function EncodeKey(key: CacheKey): Result<Bytes, CodecError> {
    var namespace :- EncodeNamespace(key.namespace, MAX_COMPONENT_BYTES);
    var encoded :- PutBytes(key.encoded, MAX_COMPONENT_BYTES);
    Ok(namespace + BigEndian(key.formatVersion, 2) + encoded)
  }

  function DecodeKey(bytes: Bytes): Parsed<CacheKey> {
    var (namespace, rest) :- DecodeNamespace(bytes);
    var (version, rest) :- ReadNumber(rest, 2);
    if version != CACHE_KEY_FORMAT_VERSION then Err(Incompatible)
    else
      var (encoded, rest) :- ReadBytes(rest, MAX_COMPONENT_BYTES);
      Ok((CacheKey(namespace, encoded, version), rest))
  }

  // ---------------------------------------------------------------- entry fields

  function QualityTag(quality: CacheQuality): Byte {
    match quality
    case Failure => 0
    case Negative => 1
    case Complete => 2
  }

  function QualityOf(tag: Byte): Result<CacheQuality, CodecError> {
    if tag == 0 then Ok(Failure) else if tag == 1 then Ok(Negative) else if tag == 2 then Ok(Complete) else Err(Corrupt)
  }

  function ClassTag(class_: CacheResponseClass): Byte {
    match class_
    case NoError => 0
    case NoData => 1
    case NxDomain => 2
    case ServFail => 3
    case Truncated => 4
  }

  function ClassOf(tag: Byte): Result<CacheResponseClass, CodecError> {
    if tag == 0 then Ok(NoError) else if tag == 1 then Ok(NoData) else if tag == 2 then Ok(NxDomain)
    else if tag == 3 then Ok(ServFail) else if tag == 4 then Ok(Truncated) else Err(Corrupt)
  }

  /** The fixed fields of a record. */
  datatype Fields = Fields(
    version: nat, producerRevision: nat, quality: CacheQuality, responseClass: CacheResponseClass, checksum: nat)

  function EncodeFields(fields: Fields, formatVersion: nat): Bytes {
    BigEndian(fields.version, 8) + BigEndian(formatVersion, 2) + BigEndian(fields.producerRevision, 8)
    + [QualityTag(fields.quality)] + [ClassTag(fields.responseClass)] + BigEndian(fields.checksum, 8)
  }

  function DecodeFields(bytes: Bytes): Parsed<Fields> {
    var (version, rest) :- ReadNumber(bytes, 8);
    var (format, rest) :- ReadNumber(rest, 2);
    if format != Admission.CACHE_ENTRY_FORMAT_VERSION then Err(Incompatible)
    else
      var (revision, rest) :- ReadNumber(rest, 8);
      var (tag, rest) :- ReadByte(rest);
      var quality :- QualityOf(tag);
      var (tag, rest) :- ReadByte(rest);
      var class_ :- ClassOf(tag);
      var (checksum, rest) :- ReadNumber(rest, 8);
      Ok((Fields(version, revision, quality, class_, checksum), rest))
  }

  function EncodeOption(value: Option<nat>): Bytes {
    if value.Some? then [1] + BigEndian(value.value, 8) else [0]
  }

  function EncodeTimes(times: SavedTimes): Bytes {
    BigEndian(times.age, 8) + BigEndian(times.expires, 8) + EncodeOption(times.stale)
  }

  /** Reading the end of the optimistic window, if it was written. */
  function DecodeStale(bytes: Bytes, clock: Clock): Parsed<Option<Instant>> {
    var (tag, rest) :- ReadByte(bytes);
    if tag == 0 then Ok((None, rest))
    else if tag == 1 then
      var (stale, rest) :- ReadNumber(rest, 8);
      var until := InstantFromUnix(stale, clock.now, clock.wallStale);
      if until.Some? then Ok((until, rest)) else Err(Corrupt)
    else Err(Corrupt)
  }

  /** The age, the wall-clock expiry and the restored end of the optimistic window. */
  function DecodeTimes(bytes: Bytes, clock: Clock): Parsed<(nat, nat, Option<Instant>)> {
    var (age, rest) :- ReadNumber(bytes, 8);
    var (expires, rest) :- ReadNumber(rest, 8);
    var (until, rest) :- DecodeStale(rest, clock);
    Ok(((age, expires, until), rest))
  }

  function EncodeUpstream(upstream: UpstreamProvenance): Result<Bytes, CodecError> {
    var target :- PutBytes(upstream.targetId, MAX_UPSTREAM_ID_BYTES);
    if upstream.usedId.None? then Ok(target + [0])
    else
      var used :- PutBytes(upstream.usedId.value, MAX_UPSTREAM_ID_BYTES);
      Ok(target + [1] + used)
  }

  function DecodeUpstreamId(bytes: Bytes): Parsed<Bytes> {
    var (id, rest) :- ReadBytes(bytes, MAX_UPSTREAM_ID_BYTES);
    if ValidUpstreamId(id) then Ok((id, rest)) else Err(Corrupt)
  }

  function DecodeUpstream(bytes: Bytes): Parsed<UpstreamProvenance> {
    var (target, rest) :- DecodeUpstreamId(bytes);
    var (tag, rest) :- ReadByte(rest);
    if tag == 0 then Ok((UpstreamProvenance(target, None), rest))
    else if tag == 1 then
      var (used, rest) :- DecodeUpstreamId(rest);
      Ok((UpstreamProvenance(target, Some(used)), rest))
    else Err(Corrupt)
  }

  // ---------------------------------------------------------------- records

  function FieldsOf(record: CacheRecord): Fields {
    Fields(record.version, record.entry.producerRevision, record.entry.quality, record.entry.responseClass,
           record.entry.checksum)
  }

  function TimesOf(record: CacheRecord, clock: Clock): SavedTimes {
    SaveTimes(record.entry, clock.now, clock.wallExpires, clock.wallStale)
  }

  function EncodeRecord(key: CacheKey, record: CacheRecord, clock: Clock): Result<Bytes, CodecError> {
    if |record.entry.response| > MAX_DNS_WIRE_BYTES then Err(CodecError.ResourceExhausted)
    else
      var keyBytes :- EncodeKey(key);
      var upstream :- EncodeUpstream(record.entry.upstream);
      var wire :- PutBytes(record.entry.response, MAX_DNS_WIRE_BYTES);
      Ok(keyBytes + (EncodeFields(FieldsOf(record), record.entry.formatVersion)
                     + (EncodeTimes(TimesOf(record, clock)) + (upstream + wire))))
  }

  /** The entry a decoded record holds, once the whole payload was read and its message accepted. */
  function Assemble(
    parse: Parser, fields: Fields, times: (nat, nat, Option<Instant>), upstream: UpstreamProvenance, wire: Bytes,
    clock: Clock)
    : Result<CacheRecord, CodecError>
  {
    var message := parse(wire);
    var expires := InstantFromUnix(times.1, clock.now, clock.wallExpires);
    if message.None? then Err(Corrupt)
    else if fields.responseClass != message.value.0 || fields.checksum != Admission.CanonicalChecksum(message.value.1)
    then Err(Corrupt)
    else if times.0 > clock.now || expires.None? then Err(Corrupt)
    else Ok(CacheRecord(fields.version, CacheEntry(
      message.value.1, upstream, clock.now - times.0, expires.value, times.2, fields.responseClass,
      fields.producerRevision, fields.quality, fields.checksum, Admission.CACHE_ENTRY_FORMAT_VERSION)))
  }

  function DecodeRecord(parse: Parser, payload: Bytes, clock: Clock): Result<(CacheKey, CacheRecord), CodecError> {
    var (key, rest) :- DecodeKey(payload);
    var (fields, rest) :- DecodeFields(rest);
    var (times, rest) :- DecodeTimes(rest, clock);
    var (upstream, rest) :- DecodeUpstream(rest);
    var (wire, rest) :- ReadBytes(rest, MAX_DNS_WIRE_BYTES);
    if rest != [] then Err(Corrupt)
    else
      var record :- Assemble(parse, fields, times, upstream, wire, clock);
      Ok((key, record))
  }

  // ---------------------------------------------------------------- reading back each part

  lemma StrategyBack(strategy: Bytes, rest: Bytes)
    requires ValidStrategyId(strategy)
    ensures PutBytes(strategy, MAX_COMPONENT_BYTES).Ok?
    ensures DecodeStrategy(PutBytes(strategy, MAX_COMPONENT_BYTES).value + rest) == Ok((strategy, rest))
  {
    ReadBytesBack(strategy, MAX_COMPONENT_BYTES, rest);
  }

  lemma NamespaceBack(namespace: CacheNamespace, rest: Bytes)
    requires ValidNamespace(namespace)
    ensures EncodeNamespace(namespace, MAX_COMPONENT_BYTES).Ok?
    ensures DecodeNamespace(EncodeNamespace(namespace, MAX_COMPONENT_BYTES).value + rest) == Ok((namespace, rest))
  {
    match namespace
    case Global =>
    case Strategy(strategy) =>
      StrategyBack(strategy, rest);
      var id := PutBytes(strategy, MAX_COMPONENT_BYTES).value;
      assert [1] + id + rest == [1] + (id + rest);
    case ClientStrategy(digest, strategy) =>
      StrategyBack(strategy, rest);
      var id := PutBytes(strategy, MAX_COMPONENT_BYTES).value;
      assert [2] + digest + id + rest == [2] + (digest + (id + rest));
      ReadOctetsBack(digest, id + rest);
  }

  /** The keys an encoder can be given: a valid namespace, a 16-bit format version, encoded bytes within the limit. */
  predicate ValidKey(key: CacheKey) {
    ValidNamespace(key.namespace) && key.formatVersion < 0x1_0000 && |key.encoded| <= MAX_COMPONENT_BYTES
  }

  lemma KeyBack(key: CacheKey, rest: Bytes)
    requires ValidKey(key) && key.formatVersion == CACHE_KEY_FORMAT_VERSION
    ensures EncodeKey(key).Ok? && DecodeKey(EncodeKey(key).value + rest) == Ok((key, rest))
  {
    Powers();
    var namespace := EncodeNamespace(key.namespace, MAX_COMPONENT_BYTES);
    var version, encoded := BigEndian(key.formatVersion, 2), PutBytes(key.encoded, MAX_COMPONENT_BYTES);
    NamespaceBack(key.namespace, version + (encoded.value + rest));
    ReadNumberBack(key.formatVersion, 2, encoded.value + rest);
    ReadBytesBack(key.encoded, MAX_COMPONENT_BYTES, rest);
    Nested3(namespace.value, version, encoded.value, rest);
  }

  predicate ValidFields(fields: Fields) {
    fields.version <= U64_MAX && fields.producerRevision <= U64_MAX && fields.checksum <= U64_MAX
  }

  lemma FieldsBack(fields: Fields, rest: Bytes)
    requires ValidFields(fields)
    ensures DecodeFields(EncodeFields(fields, Admission.CACHE_ENTRY_FORMAT_VERSION) + rest) == Ok((fields, rest))
  {
    Powers();
    var version, format := BigEndian(fields.version, 8), BigEndian(Admission.CACHE_ENTRY_FORMAT_VERSION, 2);
    var revision, checksum := BigEndian(fields.producerRevision, 8), BigEndian(fields.checksum, 8);
    var quality, class_ := [QualityTag(fields.quality)], [ClassTag(fields.responseClass)];
    var last := checksum + rest;
    Nested(version, format, revision, quality, class_, checksum, rest);
    ReadNumberBack(fields.version, 8, format + (revision + (quality + (class_ + last))));
    ReadNumberBack(Admission.CACHE_ENTRY_FORMAT_VERSION, 2, revision + (quality + (class_ + last)));
    ReadNumberBack(fields.producerRevision, 8, quality + (class_ + last));
    ReadByteBack(QualityTag(fields.quality), class_ + last);
    ReadByteBack(ClassTag(fields.responseClass), last);
    ReadNumberBack(fields.checksum, 8, rest);
  }

  lemma Nested(a: Bytes, b: Bytes, c: Bytes, d: Bytes, e: Bytes, f: Bytes, rest: Bytes)
    ensures a + b + c + d + e + f + rest == a + (b + (c + (d + (e + (f + rest)))))
  {
    assert a + b + c + d + e + f + rest == (a + b + c) + (d + e + f + rest);
    assert d + e + f + rest == d + (e + (f + rest));
    assert (a + b + c) + (d + (e + (f + rest))) == a + (b + (c + (d + (e + (f + rest)))));
  }

  lemma StaleBack(stale: Option<nat>, clock: Clock, rest: Bytes)
    requires stale.Some? ==> stale.value <= U64_MAX
    ensures DecodeStale(EncodeOption(stale) + rest, clock) ==
      if stale.None? then Ok((None, rest))
      else
        var until := InstantFromUnix(stale.value, clock.now, clock.wallStale);
        if until.Some? then Ok((until, rest)) else Err(Corrupt)
  {
    Powers();
    if stale.Some? {
      var value := BigEndian(stale.value, 8);
      assert [1] + value + rest == [1] + (value + rest);
      ReadByteBack(1, value + rest);
      ReadNumberBack(stale.value, 8, rest);
    } else {
      ReadByteBack(0, rest);
    }
  }

  lemma TimesBack(times: SavedTimes, clock: Clock, rest: Bytes)
    requires times.age <= U64_MAX && times.expires <= U64_MAX && (times.stale.Some? ==> times.stale.value <= U64_MAX)
    ensures DecodeTimes(EncodeTimes(times) + rest, clock) ==
      if times.stale.None? then Ok(((times.age, times.expires, None), rest))
      else
        var until := InstantFromUnix(times.stale.value, clock.now, clock.wallStale);
        if until.Some? then Ok(((times.age, times.expires, until), rest)) else Err(Corrupt)
  {
    Powers();
    var age, expires, stale := BigEndian(times.age, 8), BigEndian(times.expires, 8), EncodeOption(times.stale);
    assert age + expires + stale + rest == age + (expires + (stale + rest));
    ReadNumberBack(times.age, 8, expires + (stale + rest));
    ReadNumberBack(times.expires, 8, stale + rest);
    StaleBack(times.stale, clock, rest);
  }

  predicate ValidUpstream(upstream: UpstreamProvenance) {
    ValidUpstreamId(upstream.targetId) && (upstream.usedId.Some? ==> ValidUpstreamId(upstream.usedId.value))
  }

  lemma UpstreamBack(upstream: UpstreamProvenance, rest: Bytes)
    requires ValidUpstream(upstream)
    ensures EncodeUpstream(upstream).Ok?
    ensures DecodeUpstream(EncodeUpstream(upstream).value + rest) == Ok((upstream, rest))
  {
    var target := PutBytes(upstream.targetId, MAX_UPSTREAM_ID_BYTES).value;
    if upstream.usedId.None? {
      assert target + [0] + rest == target + ([0] + rest);
      ReadBytesBack(upstream.targetId, MAX_UPSTREAM_ID_BYTES, [0] + rest);
    } else {
      var used := PutBytes(upstream.usedId.value, MAX_UPSTREAM_ID_BYTES).value;
      assert target + [1] + used + rest == target + ([1] + (used + rest));
      ReadBytesBack(upstream.targetId, MAX_UPSTREAM_ID_BYTES, [1] + (used + rest));
      ReadByteBack(1, used + rest);
      ReadBytesBack(upstream.usedId.value, MAX_UPSTREAM_ID_BYTES, rest);
    }
  }

  // ---------------------------------------------------------------- reading back a record

  /** A record as admission makes it: its class and checksum are those of its canonical wire. */
  predicate ValidRecord(parse: Parser, record: CacheRecord) {
    && ValidFields(FieldsOf(record)) && ValidUpstream(record.entry.upstream)
    && record.entry.formatVersion == Admission.CACHE_ENTRY_FORMAT_VERSION
    && |record.entry.response| <= MAX_DNS_WIRE_BYTES
    && parse(record.entry.response) == Some((record.entry.responseClass, record.entry.response))
    && record.entry.checksum == Admission.CanonicalChecksum(record.entry.response)
  }

  /** The record with its times as the decoder restores them; none when they do not fit its clock. */
  function Restored(record: CacheRecord, saved: Clock, now: Clock): Option<CacheRecord> {
    var times := RestoreTimes(TimesOf(record, saved), now.now, now.wallExpires, now.wallStale);
    if times.None? then None
    else Some(record.(entry := record.entry.(
      insertedAt := times.value.0, expiresAt := times.value.1, staleUntil := times.value.2)))
  }

  /** A record whose parts can be written. */
  predicate Encodable(key: CacheKey, record: CacheRecord) {
    && ValidKey(key) && key.formatVersion == CACHE_KEY_FORMAT_VERSION
    && ValidFields(FieldsOf(record)) && ValidUpstream(record.entry.upstream)
    && record.entry.formatVersion == Admission.CACHE_ENTRY_FORMAT_VERSION
    && |record.entry.response| <= MAX_DNS_WIRE_BYTES
  }

  function UpstreamBytes(record: CacheRecord): Bytes
    requires ValidUpstream(record.entry.upstream)
  {
    UpstreamBack(record.entry.upstream, []);
    EncodeUpstream(record.entry.upstream).value
  }

  function WireBytes(record: CacheRecord): Bytes
    requires |record.entry.response| <= MAX_DNS_WIRE_BYTES
  {
    PutBytes(record.entry.response, MAX_DNS_WIRE_BYTES).value
  }

  function FieldBytes(record: CacheRecord): Bytes {
    EncodeFields(FieldsOf(record), record.entry.formatVersion)
  }

  /** What follows the key of an encoded record. */
  function BodyBytes(record: CacheRecord, clock: Clock, upstream: Bytes, tail: Bytes): Bytes {
    FieldBytes(record) + (EncodeTimes(TimesOf(record, clock)) + (upstream + tail))
  }

  /** Reading an encoded record, and whatever follows it, part by part. */
  lemma PartsBack(key: CacheKey, record: CacheRecord, saved: Clock, now: Clock, extra: Bytes)
    requires Encodable(key, record)
    ensures EncodeRecord(key, record, saved).Ok?
    ensures var upstream, wire := UpstreamBytes(record), WireBytes(record);
      var body := BodyBytes(record, saved, upstream, wire + extra);
      && DecodeKey(EncodeRecord(key, record, saved).value + extra) == Ok((key, body))
      && DecodeFields(body) == Ok((FieldsOf(record), EncodeTimes(TimesOf(record, saved)) + (upstream + (wire + extra))))
      && DecodeUpstream(upstream + (wire + extra)) == Ok((record.entry.upstream, wire + extra))
      && ReadBytes(wire + extra, MAX_DNS_WIRE_BYTES) == Ok((record.entry.response, extra))
  {
    UpstreamBack(record.entry.upstream, []);
    var upstream, wire := UpstreamBytes(record), WireBytes(record);
    var fields, times := FieldBytes(record), EncodeTimes(TimesOf(record, saved));
    var body := BodyBytes(record, saved, upstream, wire + extra);
    KeyBack(key, body);
    Nested4(EncodeKey(key).value, fields, times, upstream, wire, extra);
    FieldsBack(FieldsOf(record), times + (upstream + (wire + extra)));
    UpstreamBack(record.entry.upstream, wire + extra);
    ReadBytesBack(record.entry.response, MAX_DNS_WIRE_BYTES, extra);
  }

  lemma Nested4(a: Bytes, b: Bytes, c: Bytes, d: Bytes, e: Bytes, rest: Bytes)
    ensures a + (b + (c + (d + e))) + rest == a + (b + (c + (d + (e + rest))))
  {
    assert (d + e) + rest == d + (e + rest);
    assert (c + (d + e)) + rest == c + (d + (e + rest));
    assert (b + (c + (d + e))) + rest == b + (c + (d + (e + rest)));
  }

  lemma AssembledBack(parse: Parser, record: CacheRecord, saved: Clock, now: Clock, until: Option<Instant>)
    requires ValidRecord(parse, record)
    requires var stale := TimesOf(record, saved).stale;
      until == if stale.Some? then InstantFromUnix(stale.value, now.now, now.wallStale) else None
    requires TimesOf(record, saved).stale.Some? ==> until.Some?
    ensures Assemble(parse, FieldsOf(record), (TimesOf(record, saved).age, TimesOf(record, saved).expires, until),
                     record.entry.upstream, record.entry.response, now) ==
      match Restored(record, saved, now)
      case Some(restored) => Ok(restored)
      case None => Err(Corrupt)
  {
  }

  /** Decoding an encoded record gives back its key, version, provenance, class, quality, checksum and wire, with only
      the times moved to the new clock; nothing is left over. */
  lemma RecordRoundTrip(parse: Parser, key: CacheKey, record: CacheRecord, saved: Clock, now: Clock)
    requires Encodable(key, record) && ValidRecord(parse, record)
    ensures EncodeRecord(key, record, saved).Ok?
    ensures DecodeRecord(parse, EncodeRecord(key, record, saved).value, now) ==
      match Restored(record, saved, now)
      case Some(restored) => Ok((key, restored))
      case None => Err(Corrupt)
  {
    var upstream, wire := UpstreamBytes(record), WireBytes(record);
    PartsBack(key, record, saved, now, []);
    var payload := EncodeRecord(key, record, saved).value;
    assert payload + [] == payload;
    var times := TimesOf(record, saved);
    TimesBack(times, now, upstream + (wire + []));
    var until := if times.stale.Some? then InstantFromUnix(times.stale.value, now.now, now.wallStale) else None;
    if times.stale.Some? ==> until.Some? {
      AssembledBack(parse, record, saved, now, until);
    }
  }

  /** A record that can be written takes less than 200,000 octets. */
  lemma EncodedSize(key: CacheKey, record: CacheRecord, clock: Clock)
    requires Encodable(key, record)
    ensures EncodeRecord(key, record, clock).Ok? && |EncodeRecord(key, record, clock).value| < 200_000
  {
    KeyBack(key, []);
    UpstreamBack(record.entry.upstream, []);
    assert |EncodeKey(key).value| < 66_000;
    assert |EncodeUpstream(record.entry.upstream).value| < 300;
    assert |EncodeTimes(TimesOf(record, clock))| <= 25;
  }

  /** Bytes after a complete record make the payload corrupt. */
  lemma TrailingBytesAreCorrupt(parse: Parser, key: CacheKey, record: CacheRecord, saved: Clock, now: Clock,
      extra: Bytes)
    requires Encodable(key, record) && extra != []
    ensures EncodeRecord(key, record, saved).Ok?
    ensures DecodeRecord(parse, EncodeRecord(key, record, saved).value + extra, now) == Err(Corrupt)
  {
    var upstream, wire := UpstreamBytes(record), WireBytes(record);
    PartsBack(key, record, saved, now, extra);
    TimesBack(TimesOf(record, saved), now, upstream + (wire + extra));
  }

  // ---------------------------------------------------------------- storage keys

  /** A key of any format version. */
  function ReadAnyKey(bytes: Bytes): Parsed<CacheKey> {
    var (namespace, rest) :- DecodeNamespace(bytes);
    var (version, rest) :- ReadNumber(rest, 2);
    var (encoded, rest) :- ReadBytes(rest, MAX_COMPONENT_BYTES);
    Ok((CacheKey(namespace, encoded, version), rest))
  }

  lemma AnyKeyBack(key: CacheKey, rest: Bytes)
    requires ValidKey(key)
    ensures EncodeKey(key).Ok? && ReadAnyKey(EncodeKey(key).value + rest) == Ok((key, rest))
  {
    Powers();
    var version, encoded := BigEndian(key.formatVersion, 2), PutBytes(key.encoded, MAX_COMPONENT_BYTES);
    NamespaceBack(key.namespace, version + (encoded.value + rest));
    ReadNumberBack(key.formatVersion, 2, encoded.value + rest);
    ReadBytesBack(key.encoded, MAX_COMPONENT_BYTES, rest);
    Nested3(EncodeNamespace(key.namespace, MAX_COMPONENT_BYTES).value, version, encoded.value, rest);
  }

  lemma Nested3(a: Bytes, b: Bytes, c: Bytes, rest: Bytes)
    ensures a + b + c + rest == a + (b + (c + rest))
  {
  }

  /** Different keys never share a storage key, and none is a proper prefix of another. */
  lemma StorageKeyIsPrefixFree(x: CacheKey, y: CacheKey, rest: Bytes)
    requires ValidKey(x) && ValidKey(y)
    ensures EncodeKey(x).Ok? && EncodeKey(y).Ok?
    ensures EncodeKey(x).value == EncodeKey(y).value + rest ==> x == y && rest == []
  {
    AnyKeyBack(x, []);
    AnyKeyBack(y, rest);
    assert EncodeKey(x).value + [] == EncodeKey(x).value;
  }

  // ---------------------------------------------------------------- what decodes was written so

  lemma StrategyIsCanonical(bytes: Bytes)
    requires DecodeStrategy(bytes).Ok?
    ensures var (strategy, rest) := DecodeStrategy(bytes).value;
      && ValidStrategyId(strategy) && PutBytes(strategy, MAX_COMPONENT_BYTES).Ok?
      && bytes == PutBytes(strategy, MAX_COMPONENT_BYTES).value + rest
  {
    ReadBytesIsCanonical(bytes, MAX_COMPONENT_BYTES);
  }

  lemma NamespaceIsCanonical(bytes: Bytes)
    requires DecodeNamespace(bytes).Ok?
    ensures var (namespace, rest) := DecodeNamespace(bytes).value;
      && ValidNamespace(namespace) && EncodeNamespace(namespace, MAX_COMPONENT_BYTES).Ok?
      && bytes == EncodeNamespace(namespace, MAX_COMPONENT_BYTES).value + rest
  {
    var after := bytes[1..];
    assert bytes == [bytes[0]] + after;
    if bytes[0] == 1 {
      StrategyIsCanonical(after);
    } else if bytes[0] == 2 {
      var digest := after[..32];
      StrategyIsCanonical(after[32..]);
      var (strategy, rest) := DecodeStrategy(after[32..]).value;
      var id := PutBytes(strategy, MAX_COMPONENT_BYTES).value;
      assert after == digest + after[32..];
      assert [2] + (digest + (id + rest)) == [2] + digest + id + rest;
    }
  }

  /** A storage key that decodes is valid, of the current version, and the one encoding of its key. */
  lemma KeyIsCanonical(bytes: Bytes)
    requires DecodeKey(bytes).Ok?
    ensures var (key, rest) := DecodeKey(bytes).value;
      && ValidKey(key) && key.formatVersion == CACHE_KEY_FORMAT_VERSION
      && EncodeKey(key).Ok? && bytes == EncodeKey(key).value + rest
  {
    Powers();
    NamespaceIsCanonical(bytes);
    var (namespace, afterNamespace) := DecodeNamespace(bytes).value;
    NumberIsCanonical(afterNamespace, 2);
    var (version, afterVersion) := ReadNumber(afterNamespace, 2).value;
    ReadBytesIsCanonical(afterVersion, MAX_COMPONENT_BYTES);
    var (encoded, rest) := ReadBytes(afterVersion, MAX_COMPONENT_BYTES).value;
    Nested3(EncodeNamespace(namespace, MAX_COMPONENT_BYTES).value, BigEndian(version, 2),
            PutBytes(encoded, MAX_COMPONENT_BYTES).value, rest);
  }

  /** What the assembly of a record makes sure of. */
  ghost predicate AssembledOk(parse: Parser, record: CacheRecord, upstream: UpstreamProvenance, clock: Clock) {
    && record.entry.upstream == upstream && record.entry.formatVersion == Admission.CACHE_ENTRY_FORMAT_VERSION
    && record.entry.checksum == Admission.CanonicalChecksum(record.entry.response)
    && record.entry.insertedAt <= clock.now <= record.entry.expiresAt
    && exists wire :: parse(wire) == Some((record.entry.responseClass, record.entry.response))
  }

  lemma AssembledIsValid(
    parse: Parser, fields: Fields, times: (nat, nat, Option<Instant>), upstream: UpstreamProvenance, wire: Bytes,
    clock: Clock)
    requires Assemble(parse, fields, times, upstream, wire, clock).Ok?
    ensures AssembledOk(parse, Assemble(parse, fields, times, upstream, wire, clock).value, upstream, clock)
  {
    var record := Assemble(parse, fields, times, upstream, wire, clock).value;
    assert parse(wire) == Some((record.entry.responseClass, record.entry.response));
  }

  lemma UpstreamIsValid(bytes: Bytes)
    requires DecodeUpstream(bytes).Ok?
    ensures ValidUpstream(DecodeUpstream(bytes).value.0)
  {
  }

  lemma DecodedParts(parse: Parser, payload: Bytes, clock: Clock)
    returns (fields: Fields, times: (nat, nat, Option<Instant>), upstream: UpstreamProvenance, wire: Bytes)
    requires DecodeRecord(parse, payload, clock).Ok?
    ensures DecodeKey(payload).Ok? && DecodeKey(payload).value.0 == DecodeRecord(parse, payload, clock).value.0
    ensures ValidUpstream(upstream)
    ensures Assemble(parse, fields, times, upstream, wire, clock) == Ok(DecodeRecord(parse, payload, clock).value.1)
  {
    var (_, afterKey) := DecodeKey(payload).value;
    var (f, afterFields) := DecodeFields(afterKey).value;
    var (t, afterTimes) := DecodeTimes(afterFields, clock).value;
    var (u, afterUpstream) := DecodeUpstream(afterTimes).value;
    UpstreamIsValid(afterTimes);
    fields, times, upstream, wire := f, t, u, ReadBytes(afterUpstream, MAX_DNS_WIRE_BYTES).value.0;
  }

  /** A record that decodes is a valid one: its key is canonical, its provenance valid, and class, checksum and wire are
      those of a message the parser accepts; it was inserted no later than now and expires no earlier. */
  lemma DecodedIsValid(parse: Parser, payload: Bytes, clock: Clock)
    requires DecodeRecord(parse, payload, clock).Ok?
    ensures var (key, record) := DecodeRecord(parse, payload, clock).value;
      && ValidKey(key) && key.formatVersion == CACHE_KEY_FORMAT_VERSION
      && EncodeKey(key).Ok? && EncodeKey(key).value <= payload
      && ValidUpstream(record.entry.upstream) && AssembledOk(parse, record, record.entry.upstream, clock)
  {
    KeyIsCanonical(payload);
    var fields, times, upstream, wire := DecodedParts(parse, payload, clock);
    AssembledIsValid(parse, fields, times, upstream, wire, clock);
  }

  /** A payload of another key version or another entry version is incompatible, whatever follows. */
  lemma OtherVersionsAreIncompatible(parse: Parser, key: CacheKey, version: nat, format: nat, rest: Bytes, clock: Clock)
    requires ValidKey(key) && version < Power256(8) && format < 0x1_0000
    ensures key.formatVersion != CACHE_KEY_FORMAT_VERSION ==>
      EncodeKey(key).Ok? && DecodeRecord(parse, EncodeKey(key).value + rest, clock) == Err(Incompatible)
    ensures key.formatVersion == CACHE_KEY_FORMAT_VERSION && format != Admission.CACHE_ENTRY_FORMAT_VERSION ==>
      && EncodeKey(key).Ok?
      && DecodeRecord(parse, EncodeKey(key).value + (BigEndian(version, 8) + (BigEndian(format, 2) + rest)), clock)
         == Err(Incompatible)
  {
    Powers();
    if key.formatVersion == CACHE_KEY_FORMAT_VERSION {
      KeyBack(key, BigEndian(version, 8) + (BigEndian(format, 2) + rest));
      ReadNumberBack(version, 8, BigEndian(format, 2) + rest);
      ReadNumberBack(format, 2, rest);
    } else {
      var number, encoded := BigEndian(key.formatVersion, 2), PutBytes(key.encoded, MAX_COMPONENT_BYTES).value;
      NamespaceBack(key.namespace, number + (encoded + rest));
      ReadNumberBack(key.formatVersion, 2, encoded + rest);
      Nested3(EncodeNamespace(key.namespace, MAX_COMPONENT_BYTES).value, number, encoded, rest);
    }
  }

  /** A record whose class or checksum is not that of its message is corrupt. */
  lemma MismatchIsCorrupt(parse: Parser, key: CacheKey, record: CacheRecord, saved: Clock, now: Clock)
    requires Encodable(key, record)
    requires var message := parse(record.entry.response);
      || message.None? || message.value.0 != record.entry.responseClass
      || Admission.CanonicalChecksum(message.value.1) != record.entry.checksum
    ensures EncodeRecord(key, record, saved).Ok?
    ensures DecodeRecord(parse, EncodeRecord(key, record, saved).value, now) == Err(Corrupt)
  {
    var upstream, wire := UpstreamBytes(record), WireBytes(record);
    PartsBack(key, record, saved, now, []);
    var payload := EncodeRecord(key, record, saved).value;
    assert payload + [] == payload;
    TimesBack(TimesOf(record, saved), now, upstream + (wire + []));
  }

  // ---------------------------------------------------------------- decoding with a cursor

  method ReadStrategy(reader: Reader) returns (result: Result<Bytes, CodecError>)
    requires reader.Valid()
    modifies reader`offset
    ensures reader.Valid()
    ensures match DecodeStrategy(old(reader.Rest()))
      case Ok((value, rest)) => result == Ok(value) && reader.Rest() == rest
      case Err(error) => result == Err(error)
  {
    var strategy := reader.ByteString(MAX_COMPONENT_BYTES);
    if strategy.Err? {
      return Err(strategy.error);
    }
    result := if ValidStrategyId(strategy.value) then strategy else Err(Corrupt);
  }

  method ReadNamespace(reader: Reader) returns (result: Result<CacheNamespace, CodecError>)
    requires reader.Valid()
    modifies reader`offset
    ensures reader.Valid()
    ensures match DecodeNamespace(old(reader.Rest()))
      case Ok((value, rest)) => result == Ok(value) && reader.Rest() == rest
      case Err(error) => result == Err(error)
  {
    var tag := reader.Octet();
    if tag.Err? {
      return Err(tag.error);
    }
    if tag.value == 0 {
      return Ok(Global);
    } else if tag.value == 1 {
      var strategy := ReadStrategy(reader);
      if strategy.Err? {
        return Err(strategy.error);
      }
      return Ok(Strategy(strategy.value));
    } else if tag.value == 2 {
      var digest := reader.Take(32);
      if digest.Err? {
        return Err(digest.error);
      }
      var strategy := ReadStrategy(reader);
      if strategy.Err? {
        return Err(strategy.error);
      }
      return Ok(ClientStrategy(digest.value, strategy.value));
    }
    result := Err(Corrupt);
  }

  method ReadKey(reader: Reader) returns (result: Result<CacheKey, CodecError>)
    requires reader.Valid()
    modifies reader`offset
    ensures reader.Valid()
    ensures match DecodeKey(old(reader.Rest()))
      case Ok((value, rest)) => result == Ok(value) && reader.Rest() == rest
      case Err(error) => result == Err(error)
  {
    var namespace := ReadNamespace(reader);
    if namespace.Err? {
      return Err(namespace.error);
    }
    var version := reader.Number(2);
    if version.Err? {
      return Err(version.error);
    }
    if version.value != CACHE_KEY_FORMAT_VERSION {
      return Err(Incompatible);
    }
    var encoded := reader.ByteString(MAX_COMPONENT_BYTES);
    if encoded.Err? {
      return Err(encoded.error);
    }
    result := Ok(CacheKey(namespace.value, encoded.value, version.value));
  }

  method ReadFields(reader: Reader) returns (result: Result<Fields, CodecError>)
    requires reader.Valid()
    modifies reader`offset
    ensures reader.Valid()
    ensures match DecodeFields(old(reader.Rest()))
      case Ok((value, rest)) => result == Ok(value) && reader.Rest() == rest
      case Err(error) => result == Err(error)
  {
    var version := reader.Number(8);
    if version.Err? {
      return Err(version.error);
    }
    var format := reader.Number(2);
    if format.Err? {
      return Err(format.error);
    }
    if format.value != Admission.CACHE_ENTRY_FORMAT_VERSION {
      return Err(Incompatible);
    }
    var revision := reader.Number(8);
    if revision.Err? {
      return Err(revision.error);
    }
    var qualityTag := reader.Octet();
    if qualityTag.Err? {
      return Err(qualityTag.error);
    }
    var quality := QualityOf(qualityTag.value);
    if quality.Err? {
      return Err(quality.error);
    }
    var classTag := reader.Octet();
    if classTag.Err? {
      return Err(classTag.error);
    }
    var class_ := ClassOf(classTag.value);
    if class_.Err? {
      return Err(class_.error);
    }
    var checksum := reader.Number(8);
    if checksum.Err? {
      return Err(checksum.error);
    }
    result := Ok(Fields(version.value, revision.value, quality.value, class_.value, checksum.value));
  }

  method ReadTimes(reader: Reader, clock: Clock) returns (result: Result<(nat, nat, Option<Instant>), CodecError>)
    requires reader.Valid()
    modifies reader`offset
    ensures reader.Valid()
    ensures match DecodeTimes(old(reader.Rest()), clock)
      case Ok((value, rest)) => result == Ok(value) && reader.Rest() == rest
      case Err(error) => result == Err(error)
  {
    var age := reader.Number(8);
    if age.Err? {
      return Err(age.error);
    }
    var expires := reader.Number(8);
    if expires.Err? {
      return Err(expires.error);
    }
    var tag := reader.Octet();
    if tag.Err? {
      return Err(tag.error);
    }
    if tag.value == 0 {
      return Ok((age.value, expires.value, None));
    } else if tag.value == 1 {
      var stale := reader.Number(8);
      if stale.Err? {
        return Err(stale.error);
      }
      var until := InstantFromUnix(stale.value, clock.now, clock.wallStale);
      return if until.Some? then Ok((age.value, expires.value, until)) else Err(Corrupt);
    }
    result := Err(Corrupt);
  }

  method ReadUpstreamId(reader: Reader) returns (result: Result<Bytes, CodecError>)
    requires reader.Valid()
    modifies reader`offset
    ensures reader.Valid()
    ensures match DecodeUpstreamId(old(reader.Rest()))
      case Ok((value, rest)) => result == Ok(value) && reader.Rest() == rest
      case Err(error) => result == Err(error)
  {
    var id := reader.ByteString(MAX_UPSTREAM_ID_BYTES);
    if id.Err? {
      return Err(id.error);
    }
    result := if ValidUpstreamId(id.value) then id else Err(Corrupt);
  }

  method ReadUpstream(reader: Reader) returns (result: Result<UpstreamProvenance, CodecError>)
    requires reader.Valid()
    modifies reader`offset
    ensures reader.Valid()
    ensures match DecodeUpstream(old(reader.Rest()))
      case Ok((value, rest)) => result == Ok(value) && reader.Rest() == rest
      case Err(error) => result == Err(error)
  {
    var target := ReadUpstreamId(reader);
    if target.Err? {
      return Err(target.error);
    }
    var tag := reader.Octet();
    if tag.Err? {
      return Err(tag.error);
    }
    if tag.value == 0 {
      return Ok(UpstreamProvenance(target.value, None));
    } else if tag.value == 1 {
      var used := ReadUpstreamId(reader);
      if used.Err? {
        return Err(used.error);
      }
      return Ok(UpstreamProvenance(target.value, Some(used.value)));
    }
    result := Err(Corrupt);
  }

  /** `decode_record` */
  method ReadRecord(parse: Parser, payload: Bytes, clock: Clock) returns (result: Result<(CacheKey, CacheRecord),
      CodecError>)
    ensures result == DecodeRecord(parse, payload, clock)
  {
    var reader := new Reader(payload);
    var key := ReadKey(reader);
    if key.Err? {
      return Err(key.error);
    }
    var fields := ReadFields(reader);
    if fields.Err? {
      return Err(fields.error);
    }
    var times := ReadTimes(reader, clock);
    if times.Err? {
      return Err(times.error);
    }
    var upstream := ReadUpstream(reader);
    if upstream.Err? {
      return Err(upstream.error);
    }
    var wire := reader.ByteString(MAX_DNS_WIRE_BYTES);
    if wire.Err? {
      return Err(wire.error);
    }
    if reader.offset != |reader.bytes| {
      return Err(Corrupt);
    }
    var record := Assemble(parse, fields.value, times.value, upstream.value, wire.value, clock);
    if record.Err? {
      return Err(record.error);
    }
    result := Ok((key.value, record.value));
  }
}
