/** The encoding of a cache key: every dimension that can change an answer, in a form that never aliases. */
module CacheKeyCodec {
  import opened Basics
  import opened ByteCodec
  import opened CachePort
  import RecordCodec

  /** An opaque digest of 32 octets. */
  type Fingerprint = bytes: Bytes | |bytes| == 32 witness seq(32, i => 0)

  datatype Mode = Fast | Resolved

  datatype Dimensions = Dimensions(
    mode: Mode,
    policy: Option<Fingerprint>,
    request: Option<Fingerprint>,
    target: Option<Fingerprint>,
    ecs: Option<Fingerprint>)

  /** What a cache key stands for; the query is its canonical wire, the transport class a 64-bit number. */
  datatype Identity = Identity(namespace: CacheNamespace, query: Bytes, transport: U64, dimensions: Dimensions)

  const MAGIC: Bytes := ['F' as nat, 'D' as nat, 'C' as nat, 'K' as nat]

  function ModeTag(mode: Mode): Byte {
    if mode.Fast? then 0 else 1
  }

  function EncodeFingerprint(fingerprint: Option<Fingerprint>): Bytes {
    if fingerprint.Some? then [1] + fingerprint.value else [0]
  }

  function EncodeDimensions(dimensions: Dimensions): Bytes {
    [ModeTag(dimensions.mode)] + (EncodeFingerprint(dimensions.policy) + (EncodeFingerprint(dimensions.request)
      + (EncodeFingerprint(dimensions.target) + EncodeFingerprint(dimensions.ecs))))
  }

  /** `build_cache_key` */
  function BuildCacheKey(identity: Identity): Result<CacheKey, CodecError> {
    var namespace :- RecordCodec.EncodeNamespace(identity.namespace, MAX_U32);
    var query :- PutBytes(identity.query, MAX_U32);
    Ok(CacheKey(
      identity.namespace,
      MAGIC + (BigEndian(RecordCodec.CACHE_KEY_FORMAT_VERSION, 2) + (namespace + (BigEndian(identity.transport, 8)
        + (EncodeDimensions(identity.dimensions) + query)))),
      RecordCodec.CACHE_KEY_FORMAT_VERSION))
  }

  // ---------------------------------------------------------------- reading back

  function ReadNamespace(bytes: Bytes): Parsed<CacheNamespace> {
    var (tag, rest) :- ReadByte(bytes);
    if tag == 0 then Ok((Global, rest))
    else if tag == 1 then
      var (strategy, rest) :- ReadBytes(rest, MAX_U32);
      Ok((Strategy(strategy), rest))
    else
      var (digest, rest) :- ReadOctets(rest, 32);
      var (strategy, rest) :- ReadBytes(rest, MAX_U32);
      Ok((ClientStrategy(digest, strategy), rest))
  }

  function ReadFingerprint(bytes: Bytes): Parsed<Option<Fingerprint>> {
    var (tag, rest) :- ReadByte(bytes);
    if tag == 0 then Ok((None, rest))
    else
      var (value, rest) :- ReadOctets(rest, 32);
      Ok((Some(value), rest))
  }

  function ReadDimensions(bytes: Bytes): Parsed<Dimensions> {
    var (mode, rest) :- ReadByte(bytes);
    var (policy, rest) :- ReadFingerprint(rest);
    var (request, rest) :- ReadFingerprint(rest);
    var (target, rest) :- ReadFingerprint(rest);
    var (ecs, rest) :- ReadFingerprint(rest);
    Ok((Dimensions(if mode == 0 then Fast else Resolved, policy, request, target, ecs), rest))
  }

  /** The identity an encoded key stands for. */
  function ReadIdentity(encoded: Bytes): Result<Identity, CodecError> {
    var (_, rest) :- ReadOctets(encoded, 4);
    var (_, rest) :- ReadNumber(rest, 2);
    var (namespace, rest) :- ReadNamespace(rest);
    var (transport, rest) :- ReadNumber(rest, 8);
    var (dimensions, rest) :- ReadDimensions(rest);
    var (query, rest) :- ReadBytes(rest, MAX_U32);
    if transport > U64_MAX then Err(Corrupt) else Ok(Identity(namespace, query, transport, dimensions))
  }

  predicate DigestSized(namespace: CacheNamespace) {
    namespace.ClientStrategy? ==> |namespace.clientDigest| == 32
  }

  lemma NamespaceBack(namespace: CacheNamespace, rest: Bytes)
    requires DigestSized(namespace) && RecordCodec.EncodeNamespace(namespace, MAX_U32).Ok?
    ensures ReadNamespace(RecordCodec.EncodeNamespace(namespace, MAX_U32).value + rest) == Ok((namespace, rest))
  {
    match namespace
    case Global =>
    case Strategy(strategy) =>
      ReadBytesBack(strategy, MAX_U32, rest);
      var id := PutBytes(strategy, MAX_U32).value;
      assert [1] + id + rest == [1] + (id + rest);
    case ClientStrategy(digest, strategy) =>
      ReadBytesBack(strategy, MAX_U32, rest);
      var id := PutBytes(strategy, MAX_U32).value;
      assert [2] + digest + id + rest == [2] + (digest + (id + rest));
      ReadOctetsBack(digest, id + rest);
  }

  lemma FingerprintBack(fingerprint: Option<Fingerprint>, rest: Bytes)
    ensures ReadFingerprint(EncodeFingerprint(fingerprint) + rest) == Ok((fingerprint, rest))
  {
    if fingerprint.Some? {
      assert [1] + fingerprint.value + rest == [1] + (fingerprint.value + rest);
      ReadOctetsBack(fingerprint.value, rest);
    }
  }

  lemma DimensionsBack(dimensions: Dimensions, rest: Bytes)
    ensures ReadDimensions(EncodeDimensions(dimensions) + rest) == Ok((dimensions, rest))
  {
    var mode := [ModeTag(dimensions.mode)];
    var policy, request := EncodeFingerprint(dimensions.policy), EncodeFingerprint(dimensions.request);
    var target, ecs := EncodeFingerprint(dimensions.target), EncodeFingerprint(dimensions.ecs);
    RecordCodec.Nested4(mode, policy, request, target, ecs, rest);
    ReadByteBack(ModeTag(dimensions.mode), policy + (request + (target + (ecs + rest))));
    FingerprintBack(dimensions.policy, request + (target + (ecs + rest)));
    FingerprintBack(dimensions.request, target + (ecs + rest));
    FingerprintBack(dimensions.target, ecs + rest);
    FingerprintBack(dimensions.ecs, rest);
  }

  /** An encoded key determines every dimension it was built from. */
  lemma IdentityBack(identity: Identity)
    requires DigestSized(identity.namespace) && BuildCacheKey(identity).Ok?
    ensures ReadIdentity(BuildCacheKey(identity).value.encoded) == Ok(identity)
  {
    Powers();
    var namespace := RecordCodec.EncodeNamespace(identity.namespace, MAX_U32).value;
    var transport, dimensions := BigEndian(identity.transport, 8), EncodeDimensions(identity.dimensions);
    var query := PutBytes(identity.query, MAX_U32).value;
    var version := BigEndian(RecordCodec.CACHE_KEY_FORMAT_VERSION, 2);
    ReadOctetsBack(MAGIC, version + (namespace + (transport + (dimensions + query))));
    ReadNumberBack(RecordCodec.CACHE_KEY_FORMAT_VERSION, 2, namespace + (transport + (dimensions + query)));
    NamespaceBack(identity.namespace, transport + (dimensions + query));
    ReadNumberBack(identity.transport, 8, dimensions + query);
    DimensionsBack(identity.dimensions, query);
    ReadBytesBack(identity.query, MAX_U32, []);
    assert query + [] == query;
  }

  /** Two requests share a key only if they agree in namespace, query, transport, mode and all four fingerprints. */
  lemma KeysNeverAlias(x: Identity, y: Identity)
    requires DigestSized(x.namespace) && DigestSized(y.namespace)
    requires BuildCacheKey(x).Ok? && BuildCacheKey(y).Ok?
    requires BuildCacheKey(x).value.encoded == BuildCacheKey(y).value.encoded
    ensures x == y
  {
    IdentityBack(x);
    IdentityBack(y);
  }
}
