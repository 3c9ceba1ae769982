/** The decrypted vault as a value, and the ideal cryptography and JSON it is stored with. */
module VaultData {
  import opened Wire
  import opened Sequences
  import opened Utf8
  import Text

  datatype ControlPlane = ControlPlane(
    url: string, beaconID: string, beaconName: string, signingPrivateKey: string, signingPublicKey: string)

  type Credentials = map<string, string>

  /** `integrations` is absent for a nil Go map. */
  datatype Data = Data(controlPlane: ControlPlane, integrations: Option<map<string, Credentials>>)

  /** Loading starts from an empty map, so nil and empty integrations come back the same. */
  function Normalized(data: Data): Data {
    if data.integrations.None? then data.(integrations := Some(map[])) else data
  }

  /** json.Marshal and json.Unmarshal of vault data. */
  datatype Codec = Codec(encode: Data -> Bytes, decode: Bytes -> Option<Data>)

  function PlaneThroughJson(p: ControlPlane): ControlPlane {
    ControlPlane(ThroughJson(p.url), ThroughJson(p.beaconID), ThroughJson(p.beaconName),
                 ThroughJson(p.signingPrivateKey), ThroughJson(p.signingPublicKey))
  }

  /** A map after JSON: its keys as JSON keeps them, each with what has become of the entry of one such key. */
  ghost predicate MapReturned<T(!new)>(m: map<string, T>, back: map<string, T>, returned: (T, T) -> bool) {
    && (forall k | k in m :: ThroughJson(k) in back)
    && forall k | k in back :: exists from | from in m :: ThroughJson(from) == k && returned(m[from], back[k])
  }

  ghost predicate TextReturned(text: string, back: string) { back == ThroughJson(text) }

  ghost predicate CredentialsReturned(credentials: Credentials, back: Credentials) {
    MapReturned(credentials, back, TextReturned)
  }

  /** Data after JSON; where two names of a map become one, either of their entries may be the one that stays. */
  ghost predicate Returned(data: Data, back: Data) {
    && back.controlPlane == PlaneThroughJson(data.controlPlane) && back.integrations.Some?
    && MapReturned(Normalized(data).integrations.value, back.integrations.value, CredentialsReturned)
  }

  /** The codec gives this data back as JSON does. */
  ghost predicate Keeps(codec: Codec, data: Data) {
    codec.decode(codec.encode(data)).Some? && Returned(data, codec.decode(codec.encode(data)).value)
  }

  /** All text that is read from JSON is well-formed. */
  ghost predicate DecodesText(codec: Codec) {
    forall bytes | codec.decode(bytes).Some? :: ValidData(codec.decode(bytes).value)
  }

  predicate ValidPlane(p: ControlPlane) {
    && ValidText(p.url) && ValidText(p.beaconID) && ValidText(p.beaconName)
    && ValidText(p.signingPrivateKey) && ValidText(p.signingPublicKey)
  }

  ghost predicate ValidMap<T>(m: map<string, T>, valid: T -> bool) {
    forall k | k in m :: ValidText(k) && valid(m[k])
  }

  ghost predicate ValidCredentials(credentials: Credentials) { ValidMap(credentials, ValidText) }

  /** Every text in the data, names included, is well-formed UTF-8. */
  ghost predicate ValidData(data: Data) {
    ValidPlane(data.controlPlane) && ValidMap(Normalized(data).integrations.value, ValidCredentials)
  }

  lemma PlaneKept(p: ControlPlane)
    ensures ValidPlane(PlaneThroughJson(p)) && (PlaneThroughJson(p) == p <==> ValidPlane(p))
  {
    JsonIsValid(p.url);
    JsonIsValid(p.beaconID);
    JsonIsValid(p.beaconName);
    JsonIsValid(p.signingPrivateKey);
    JsonIsValid(p.signingPublicKey);
    JsonKeeps(p.url);
    JsonKeeps(p.beaconID);
    JsonKeeps(p.beaconName);
    JsonKeeps(p.signingPrivateKey);
    JsonKeeps(p.signingPublicKey);
  }

  /** A map comes back as it was exactly when its keys and entries are well-formed, if its entries do. */
  lemma MapKept<T(!new)>(m: map<string, T>, back: map<string, T>, returned: (T, T) -> bool, valid: T -> bool)
    requires MapReturned(m, back, returned)
    requires forall x, y | returned(x, y) :: valid(y) && (x == y <==> valid(x))
    ensures ValidMap(back, valid) && (back == m <==> ValidMap(m, valid))
  {
    forall k
      ensures ValidText(ThroughJson(k)) && (ThroughJson(k) == k <==> ValidText(k))
    {
      JsonIsValid(k);
      JsonKeeps(k);
    }
    if ValidMap(m, valid) {
      assert forall k | k in m :: ThroughJson(k) == k;
      assert forall k | k in back :: k in m && back[k] == m[k];
    }
  }

  lemma CredentialsKept(credentials: Credentials, back: Credentials)
    requires CredentialsReturned(credentials, back)
    ensures ValidCredentials(back) && (credentials == back <==> ValidCredentials(credentials))
  {
    forall x, y | TextReturned(x, y)
      ensures ValidText(y) && (x == y <==> ValidText(x))
    {
      JsonIsValid(x);
      JsonKeeps(x);
    }
    MapKept(credentials, back, TextReturned, ValidText);
  }

  /** Data comes back from JSON as it was exactly when all its text is well-formed UTF-8. */
  lemma DataKept(data: Data, back: Data)
    requires Returned(data, back)
    ensures ValidData(back) && (back == Normalized(data) <==> ValidData(data))
    ensures ValidData(data) ==>
        && back.controlPlane == data.controlPlane
        && back.integrations == Some(if data.integrations.Some? then data.integrations.value else map[])
  {
    PlaneKept(data.controlPlane);
    forall x, y | CredentialsReturned(x, y)
      ensures ValidCredentials(y) && (x == y <==> ValidCredentials(x))
    {
      CredentialsKept(x, y);
    }
    MapKept(Normalized(data).integrations.value, back.integrations.value, CredentialsReturned, ValidCredentials);
  }

  const KEY_SIZE := 32
  const NONCE_SIZE := 24
  const OVERHEAD := 16

  /** XChaCha20-Poly1305 as an ideal: a ciphertext is the term it was sealed as, or it opens for nobody. */
  datatype Cipher = Sealed(key: Bytes, nonce: Bytes, plaintext: Bytes, metadata: string) | Noise(bytes: Bytes)

  function CipherLength(c: Cipher): nat {
    match c case Sealed(_, _, plaintext, _) => |plaintext| + OVERHEAD case Noise(bytes) => |bytes|
  }

  function Open(key: Bytes, nonce: Bytes, c: Cipher, metadata: string): Option<Bytes> {
    if c.Sealed? && c.key == key && c.nonce == nonce && c.metadata == metadata then Some(c.plaintext) else None
  }

  /** A wrapped data key: a nonce with a sealed key, as the local key makes it, or provider bytes. */
  datatype Wrapped = LocalWrap(nonce: Bytes, sealedKey: Cipher) | Remote(bytes: Bytes)

  function WrappedLength(w: Wrapped): nat {
    match w case LocalWrap(nonce, c) => |nonce| + CipherLength(c) case Remote(bytes) => |bytes|
  }

  /** A key provider; `wrap` also takes the randomness it draws. */
  datatype KeyWrapper = KeyWrapper(
    wrap: (string, Bytes, nat) -> Option<Wrapped>, unwrap: (string, Wrapped) -> Option<Bytes>)

  /** What is wrapped under this key name can be unwrapped again. */
  ghost predicate RoundTrips(wrapper: KeyWrapper, keyName: string) {
    forall key, seed | |key| == KEY_SIZE && wrapper.wrap(keyName, key, seed).Some? ::
      wrapper.unwrap(keyName, wrapper.wrap(keyName, key, seed).value) == Some(key)
  }

  // ---------------------------------------------------------------- the local key

  const LOCAL_KEY_NAME := "local.key"
  const LOCAL_METADATA := "iamly-beacon-local-key-wrap:v1"

  function LocalWrapKey(key: Bytes, keyName: string, plaintext: Bytes, nonce: Bytes): Option<Wrapped> {
    if keyName != LOCAL_KEY_NAME || |key| != KEY_SIZE then None
    else Some(LocalWrap(nonce, Sealed(key, nonce, plaintext, LOCAL_METADATA)))
  }

  function LocalUnwrapKey(key: Bytes, keyName: string, wrapped: Wrapped): Option<Bytes> {
    if keyName != LOCAL_KEY_NAME || WrappedLength(wrapped) < NONCE_SIZE + OVERHEAD || |key| != KEY_SIZE then None
    else match wrapped
      case LocalWrap(nonce, c) => if |nonce| == NONCE_SIZE then Open(key, nonce, c, LOCAL_METADATA) else None
      case Remote(_) => None
  }

  function LocalWrapper(key: Bytes, nonces: nat -> Bytes): KeyWrapper {
    KeyWrapper((keyName, plaintext, seed: nat) => LocalWrapKey(key, keyName, plaintext, nonces(seed)),
               (keyName, wrapped) => LocalUnwrapKey(key, keyName, wrapped))
  }

  /** The local key meets what the store asks of a provider: round trips of 72 bytes, for its own name. */
  lemma LocalKeyRoundTrips(key: Bytes, nonces: nat -> Bytes, keyName: string)
    requires forall seed: nat :: |nonces(seed)| == NONCE_SIZE
    ensures RoundTrips(LocalWrapper(key, nonces), keyName)
    ensures forall data, seed | |data| == KEY_SIZE ::
        var w := LocalWrapper(key, nonces).wrap(keyName, data, seed);
        (w.Some? <==> keyName == LOCAL_KEY_NAME && |key| == KEY_SIZE) && (w.Some? ==> WrappedLength(w.value) == 72)
  {
  }

  /** What a local key unwraps: only what it has wrapped itself, with a nonce of 24 bytes and under its own name. */
  lemma LocalUnwrapMeans(key: Bytes, keyName: string, wrapped: Wrapped, data: Bytes)
    ensures LocalUnwrapKey(key, keyName, wrapped) == Some(data) <==>
        && keyName == "local.key" && |key| == 32
        && exists nonce: Bytes ::
          |nonce| == 24 && wrapped == LocalWrap(nonce, Sealed(key, nonce, data, "iamly-beacon-local-key-wrap:v1"))
  {
    if LocalUnwrapKey(key, keyName, wrapped) == Some(data) {
      var nonce := wrapped.nonce;
      assert wrapped.sealedKey == Sealed(key, nonce, data, LOCAL_METADATA);
    }
  }

  /** A data key wrapped by one local key does not unwrap under another. */
  lemma OtherLocalKeyFails(key: Bytes, other: Bytes, data: Bytes, nonce: Bytes)
    requires |key| == KEY_SIZE && key != other
    ensures LocalUnwrapKey(other, LOCAL_KEY_NAME, LocalWrapKey(key, LOCAL_KEY_NAME, data, nonce).value).None?
  {
  }

  // ---------------------------------------------------------------- authenticated metadata

  const PROVIDER_LOCAL := "local"
  const PROVIDER_GOOGLE := "gcp-kms"
  const PROVIDER_AWS := "aws-kms"

  predicate SupportedProvider(provider: string) {
    provider == PROVIDER_LOCAL || provider == PROVIDER_GOOGLE || provider == PROVIDER_AWS
  }

  function AuthenticatedMetadata(version: int, provider: string, keyName: string): string {
    "iamly-beacon-vault:" + (Text.FormatInt(version) + ":" + (provider + ":" + keyName))
  }

  /** Version, provider and key name, each after a colon. */
  lemma MetadataText(version: int, provider: string, keyName: string)
    ensures AuthenticatedMetadata(version, provider, keyName) ==
        "iamly-beacon-vault:" + Text.FormatInt(version) + ":" + provider + ":" + keyName
  {
    Associated("iamly-beacon-vault:", Text.FormatInt(version), ":", provider, ":", keyName);
  }

  lemma Associated(a: string, b: string, c: string, d: string, e: string, f: string)
    ensures a + (b + (c + (d + (e + f)))) == a + b + c + d + e + f
    ensures a + (b + c + (d + e + f)) == a + b + c + d + e + f
  {
    Associative(d, e, f);
    Associative(a, b, c);
    assert a + (b + c + (d + e + f)) == a + b + c + d + e + f;
    assert a + (b + (c + (d + (e + f)))) == a + b + c + d + e + f;
  }

  lemma FormatIntInjective(m: int, n: int)
    requires Text.FormatInt(m) == Text.FormatInt(n)
    ensures m == n
  {
    Text.ValueOfDecimal(if m < 0 then -m else m);
    Text.ValueOfDecimal(if n < 0 then -n else n);
    assert m < 0 ==> Text.FormatInt(m)[0] == '-' && Text.FormatInt(m)[1..] == Text.Decimal(-m);
    assert n < 0 ==> Text.FormatInt(n)[0] == '-' && Text.FormatInt(n)[1..] == Text.Decimal(-n);
  }

  lemma FormatIntPlain(n: int)
    ensures ':' !in Text.FormatInt(n)
  {
    assert forall i | 0 <= i < |Text.FormatInt(n)| ::
        Text.FormatInt(n)[i] == '-' || Text.IsDigit(Text.FormatInt(n)[i]) by {
      if n < 0 {
        assert forall i | 1 <= i < |Text.FormatInt(n)| :: Text.FormatInt(n)[i] == Text.Decimal(-n)[i - 1];
      }
    }
  }

  /** The metadata determines version, provider and key name, even a key name full of colons. */
  lemma MetadataInjective(v1: int, p1: string, k1: string, v2: int, p2: string, k2: string)
    requires SupportedProvider(p1) && SupportedProvider(p2)
    requires AuthenticatedMetadata(v1, p1, k1) == AuthenticatedMetadata(v2, p2, k2)
    ensures v1 == v2 && p1 == p2 && k1 == k2
  {
    var f1, f2 := Text.FormatInt(v1), Text.FormatInt(v2);
    CancelFront("iamly-beacon-vault:", f1 + ":" + (p1 + ":" + k1), f2 + ":" + (p2 + ":" + k2));
    FormatIntPlain(v1);
    FormatIntPlain(v2);
    Text.FirstSeparator(f1, p1 + ":" + k1, f2, p2 + ":" + k2, ':');
    FormatIntInjective(v1, v2);
    Text.FirstSeparator(p1, k1, p2, k2, ':');
  }
}

/** Save, Load and readEnvelope of internal/vault/vault.go. */
module VaultStore {
  import opened Wire
  import opened Disks
  import opened AtomicWrites
  import opened Heaps
  import opened VaultData
  import opened Utf8
  import Text

  const FORMAT_VERSION := 1
  const MEBIBYTE := 0x10_0000
  const MAX_FILE := 128 * MEBIBYTE
  const MAX_PLAINTEXT := 80 * MEBIBYTE
  const MAX_WRAPPED := 64 * 0x400

  datatype Envelope = Envelope(
    version: int, provider: string, keyName: string, wrappedDEK: Wrapped, nonce: Bytes, ciphertext: Cipher)

  /**
   A file as its readers meet it: a length, what strict JSON decoding makes of it, and the bytes where they
   are not the JSON of an envelope.
  */
  datatype Blob = Blob(length: nat, parsed: Option<Envelope>, raw: Option<Bytes>)

  /** A file of bytes that are no envelope, as a local key is. */
  function KeyFile(bytes: Bytes): Blob { Blob(|bytes|, None, Some(bytes)) }

  // ---------------------------------------------------------------- sizes

  /** Section 4 of RFC 4648: every started group of three bytes takes four characters. */
  function Base64Length(n: nat): nat { 4 * ((n + 2) / 3) }

  /** The character for six bits. */
  function Sextet(n: Byte): char
    requires n < 64
  {
    if n < 26 then ('A' as int + n as int) as char
    else if n < 52 then ('a' as int + n as int - 26) as char
    else if n < 62 then ('0' as int + n as int - 52) as char
    else if n == 62 then '+'
    else '/'
  }

  /** One to three bytes in four characters. */
  function Group(bytes: Bytes): (r: string)
    requires 1 <= |bytes| <= 3
    ensures |r| == 4
  {
    var a, b, c := bytes[0], if |bytes| > 1 then bytes[1] else 0, if |bytes| > 2 then bytes[2] else 0;
    [Sextet(a / 4), Sextet(a % 4 * 16 + b / 16), if |bytes| > 1 then Sextet(b % 16 * 4 + c / 64) else '=',
     if |bytes| > 2 then Sextet(c % 64) else '=']
  }

  /** Base64 with padding. */
  function Base64(bytes: Bytes): string {
    if bytes == [] then ""
    else if |bytes| <= 3 then Group(bytes)
    else Group(bytes[..3]) + Base64(bytes[3..])
  }

  lemma {:induction false} Base64Takes(bytes: Bytes)
    ensures |Base64(bytes)| == Base64Length(|bytes|)
  {
    if |bytes| > 3 {
      Base64Takes(bytes[3..]);
      FourMore(|bytes| - 3);
      assert Base64(bytes) == Group(bytes[..3]) + Base64(bytes[3..]);
    }
  }

  lemma FourMore(n: nat)
    ensures Base64Length(n + 3) == Base64Length(n) + 4
  {
  }

  /** Length of a JSON string with its quotes; each byte takes at least one character and at most six. */
  ghost predicate JsonText(length: string -> nat) {
    forall s :: |s| + 2 <= length(s) <= 6 * |s| + 2
  }

  function EnvelopeLength(e: Envelope, jsonText: string -> nat): nat {
    |"{\"version\":"| + |Text.FormatInt(e.version)|
    + |",\"provider\":"| + jsonText(e.provider)
    + |",\"key_name\":"| + jsonText(e.keyName)
    + |",\"wrapped_dek\":"| + Base64Length(WrappedLength(e.wrappedDEK)) + 2
    + |",\"nonce\":"| + Base64Length(|e.nonce|) + 2
    + |",\"ciphertext\":"| + Base64Length(CipherLength(e.ciphertext)) + 2 + |"}"|
  }

  /** The length is that of the JSON text, given its two strings and its three byte fields. */
  lemma EnvelopeLengthIs(
      e: Envelope, jsonText: string -> nat, provider: string, keyName: string, dek: Bytes, ciphertext: Bytes)
    requires |provider| == jsonText(e.provider) && |keyName| == jsonText(e.keyName)
    requires |dek| == WrappedLength(e.wrappedDEK) && |ciphertext| == CipherLength(e.ciphertext)
    ensures EnvelopeLength(e, jsonText) ==
        |"{\"version\":" + Text.FormatInt(e.version) + ",\"provider\":" + provider + ",\"key_name\":" + keyName
         + ",\"wrapped_dek\":\"" + Base64(dek) + "\",\"nonce\":\"" + Base64(e.nonce)
         + "\",\"ciphertext\":\"" + Base64(ciphertext) + "\"}"|
  {
    Base64Takes(dek);
    Base64Takes(e.nonce);
    Base64Takes(ciphertext);
  }

  /** json.Marshal; the two strings come back as JSON keeps them. */
  function Marshal(e: Envelope, jsonText: string -> nat): Blob {
    var kept := e.(provider := ThroughJson(e.provider), keyName := ThroughJson(e.keyName));
    Blob(EnvelopeLength(e, jsonText), Some(kept), None)
  }

  lemma Base64Monotone(m: nat, n: nat)
    requires m <= n
    ensures Base64Length(m) <= Base64Length(n)
  {
  }

  /** An 80 MiB plaintext, a 64 KiB wrapped key and a key name of 3,500,000 bytes still fit in 128 MiB. */
  lemma EnvelopeFits(e: Envelope, jsonText: string -> nat)
    requires JsonText(jsonText) && e.version == FORMAT_VERSION && SupportedProvider(e.provider)
    requires |e.keyName| <= 3_500_000 && WrappedLength(e.wrappedDEK) <= MAX_WRAPPED && |e.nonce| == NONCE_SIZE
    requires CipherLength(e.ciphertext) <= MAX_PLAINTEXT + OVERHEAD
    ensures EnvelopeLength(e, jsonText) <= MAX_FILE
  {
    Base64Monotone(WrappedLength(e.wrappedDEK), MAX_WRAPPED);
    Base64Monotone(CipherLength(e.ciphertext), MAX_PLAINTEXT + OVERHEAD);
    assert jsonText(e.provider) <= 6 * 7 + 2;
    assert jsonText(e.keyName) <= 6 * 3_500_000 + 2;
    assert Text.FormatInt(FORMAT_VERSION) == "1";
  }

  // ---------------------------------------------------------------- reading

  datatype LoadError =
    | NotFound | TooLarge | BadFormat | Unsupported | BadEnvelope
    | Changed | KeyFailed | BadKey | NotAuthentic | BadPayload

  predicate WithinLimits(e: Envelope) {
    && 0 < WrappedLength(e.wrappedDEK) <= MAX_WRAPPED && |e.nonce| == NONCE_SIZE
    && OVERHEAD <= CipherLength(e.ciphertext) <= MAX_PLAINTEXT + OVERHEAD
  }

  /** What a file must be for readEnvelope to return it. */
  ghost predicate Readable(found: Found<Blob>) {
    && found.Whole? && found.blob.length <= MAX_FILE && found.blob.parsed.Some?
    && var e := found.blob.parsed.value;
       && e.version == FORMAT_VERSION && SupportedProvider(e.provider) && e.keyName != "" && WithinLimits(e)
  }

  method ReadEnvelope(found: Found<Blob>) returns (r: Outcome<Envelope, LoadError>)
    ensures r.Ok? <==> Readable(found)
    ensures forall e :: r == Ok(e) <==>
        && found.Whole? && found.blob.length <= 134_217_728 && found.blob.parsed == Some(e)
        && e.version == 1 && (e.provider == "local" || e.provider == "gcp-kms" || e.provider == "aws-kms")
        && e.keyName != "" && 1 <= WrappedLength(e.wrappedDEK) <= 65_536
        && |e.nonce| == 24 && 16 <= CipherLength(e.ciphertext) <= 83_886_096
    ensures r == Err(NotFound) <==> found == Missing
  {
    if found.Missing? {
      return Err(NotFound);
    }
    if found.Torn? {
      return Err(BadFormat);
    }
    if found.blob.length > MAX_FILE {
      return Err(TooLarge);
    }
    if found.blob.parsed.None? {
      return Err(BadFormat);
    }
    var e := found.blob.parsed.value;
    if e.version != FORMAT_VERSION
      || (e.provider != PROVIDER_LOCAL && e.provider != PROVIDER_GOOGLE && e.provider != PROVIDER_AWS)
      || e.keyName == "" {
      return Err(Unsupported);
    }
    if WrappedLength(e.wrappedDEK) == 0 || WrappedLength(e.wrappedDEK) > MAX_WRAPPED || |e.nonce| != NONCE_SIZE
      || CipherLength(e.ciphertext) < OVERHEAD || CipherLength(e.ciphertext) > MAX_PLAINTEXT + OVERHEAD {
      return Err(BadEnvelope);
    }
    return Ok(e);
  }

  // ---------------------------------------------------------------- the store

  /** Everything a store is opened with. */
  datatype Config = Config(
    path: string, provider: string, keyName: string, wrapper: KeyWrapper, codec: Codec, jsonText: string -> nat)

  /** The data that a file holds for a store, if it opens at all. */
  ghost predicate Loads(c: Config, found: Found<Blob>, data: Data) {
    && Readable(found)
    && var e := found.blob.parsed.value;
       && e.provider == c.provider && e.keyName == c.keyName
       && var key := c.wrapper.unwrap(e.keyName, e.wrappedDEK);
          && key.Some? && |key.value| == KEY_SIZE
          && var metadata := AuthenticatedMetadata(e.version, e.provider, e.keyName);
             var plaintext := Open(key.value, e.nonce, e.ciphertext, metadata);
             plaintext.Some? && c.codec.decode(plaintext.value) == Some(data)
  }

  /** What loads: a readable file of this provider and key name, sealed under the key that the provider unwraps. */
  lemma LoadsMeans(c: Config, found: Found<Blob>, data: Data)
    ensures Loads(c, found, data) <==>
        && Readable(found)
        && var e := found.blob.parsed.value;
           && e.provider == c.provider && e.keyName == c.keyName
           && exists key: Bytes, plaintext: Bytes ::
             && c.wrapper.unwrap(c.keyName, e.wrappedDEK) == Some(key) && |key| == 32
             && e.ciphertext ==
                  Sealed(key, e.nonce, plaintext, "iamly-beacon-vault:1:" + c.provider + ":" + c.keyName)
             && c.codec.decode(plaintext) == Some(data)
  {
    if Readable(found) {
      var e := found.blob.parsed.value;
      VersionOne(e.provider, e.keyName);
      if Loads(c, found, data) {
        var key := c.wrapper.unwrap(e.keyName, e.wrappedDEK).value;
        assert e.ciphertext == Sealed(key, e.nonce, e.ciphertext.plaintext, e.ciphertext.metadata);
      }
    }
  }

  lemma VersionOne(provider: string, keyName: string)
    ensures AuthenticatedMetadata(FORMAT_VERSION, provider, keyName) ==
        "iamly-beacon-vault:1:" + provider + ":" + keyName
  {
    MetadataText(1, provider, keyName);
    assert Text.FormatInt(1) == "1";
    assert "iamly-beacon-vault:" + "1" + ":" == "iamly-beacon-vault:1:";
  }

  ghost predicate Wiped(buffers: set<array<Byte>>)
    reads buffers
  {
    forall b, i | b in buffers && 0 <= i < b.Length :: b[i] == 0
  }

  method Wipe(value: array<Byte>)
    modifies value
    ensures forall i | 0 <= i < value.Length :: value[i] == 0
  {
    for index := 0 to value.Length
      invariant forall i | 0 <= i < index :: value[i] == 0
    {
      value[index] := 0;
    }
  }

  /** Since `before` every new buffer has been wiped. */
  ghost predicate WipedSince(heap: Ledger<Byte>, before: set<array<Byte>>)
    reads heap, heap.buffers
  {
    before <= heap.buffers && Wiped(heap.buffers - before)
  }

  /** The secrets that Load takes into memory: the unwrapped key, and what it opens. */
  ghost function LoadSecrets(c: Config, found: Found<Blob>): seq<Bytes> {
    if !Readable(found) then []
    else
      var e := found.blob.parsed.value;
      if e.provider != c.provider || e.keyName != c.keyName then []
      else match c.wrapper.unwrap(e.keyName, e.wrappedDEK)
        case None => []
        case Some(key) =>
          if |key| != KEY_SIZE then [key]
          else match Open(key, e.nonce, e.ciphertext, AuthenticatedMetadata(e.version, e.provider, e.keyName))
            case None => [key]
            case Some(plaintext) => [key, plaintext]
  }

  /** The buffers of a Load: none before the key is unwrapped, and the plaintext only when the file opens. */
  lemma LoadSecretsAre(c: Config, found: Found<Blob>, e: Envelope)
    requires found.Whole? && found.blob.parsed == Some(e)
    ensures !Readable(found) || e.provider != c.provider || e.keyName != c.keyName ==> LoadSecrets(c, found) == []
    ensures Readable(found) && e.provider == c.provider && e.keyName == c.keyName ==>
        && (c.wrapper.unwrap(c.keyName, e.wrappedDEK) == None <==> LoadSecrets(c, found) == [])
        && forall key: Bytes | c.wrapper.unwrap(c.keyName, e.wrappedDEK) == Some(key) ::
          && (forall plaintext: Bytes :: LoadSecrets(c, found) == [key, plaintext] <==>
              && |key| == 32
              && e.ciphertext ==
                   Sealed(key, e.nonce, plaintext, "iamly-beacon-vault:1:" + c.provider + ":" + c.keyName))
          && (LoadSecrets(c, found) == [key] || exists plaintext :: LoadSecrets(c, found) == [key, plaintext])
  {
    VersionOne(e.provider, e.keyName);
  }

  /** Store.Load. Whatever it returns, every buffer it made for the key and the plaintext is wiped then. */
  method Load(heap: Ledger<Byte>, c: Config, found: Found<Blob>) returns (r: Outcome<Data, LoadError>)
    modifies heap
    ensures r.Ok? <==> exists data :: Loads(c, found, data)
    ensures r.Ok? ==> Loads(c, found, r.value)
    ensures r == Err(NotFound) <==> found == Missing
    ensures heap.held == old(heap.held) + LoadSecrets(c, found)
    ensures WipedSince(heap, old(heap.buffers)) && fresh(heap.buffers - old(heap.buffers))
  {
    var read := ReadEnvelope(found);
    if read.Err? {
      return Err(read.error);
    }
    var file := read.value;
    if file.provider != c.provider || file.keyName != c.keyName {
      return Err(Changed);
    }
    var unwrapped := c.wrapper.unwrap(file.keyName, file.wrappedDEK);
    if unwrapped.None? {
      return Err(KeyFailed);
    }
    var dek := heap.Allocate(unwrapped.value);
    if dek.Length != KEY_SIZE {
      Wipe(dek);
      return Err(BadKey);
    }
    var metadata := AuthenticatedMetadata(file.version, file.provider, file.keyName);
    var unsealed := Open(dek[..], file.nonce, file.ciphertext, metadata);
    if unsealed.None? {
      Wipe(dek);
      return Err(NotAuthentic);
    }
    var plaintext := heap.Allocate(unsealed.value);
    var decoded := c.codec.decode(plaintext[..]);
    Wipe(plaintext);
    Wipe(dek);
    if decoded.None? {
      return Err(BadPayload);
    }
    assert Loads(c, found, decoded.value);
    return Ok(decoded.value);
  }

  /** The randomness of one Save, and how its file calls fare. */
  datatype Draw = Draw(key: Bytes, nonce: Bytes, seed: nat, temporary: string, faults: Faults)

  datatype SaveError = PayloadTooLarge | WrapFailed | WriteFailed

  ghost function SealedEnvelope(c: Config, data: Data, draw: Draw, wrapped: Wrapped): Envelope {
    var metadata := AuthenticatedMetadata(FORMAT_VERSION, c.provider, c.keyName);
    Envelope(FORMAT_VERSION, c.provider, c.keyName, wrapped, draw.nonce,
             Sealed(draw.key, draw.nonce, c.codec.encode(data), metadata))
  }

  /** The file Save writes. */
  ghost function SavedBlob(c: Config, data: Data, draw: Draw): Blob
    requires c.wrapper.wrap(c.keyName, draw.key, draw.seed).Some?
  {
    Marshal(SealedEnvelope(c, data, draw, c.wrapper.wrap(c.keyName, draw.key, draw.seed).value), c.jsonText)
  }

  /** The file by its fields: the data key goes into the provider's wrapping only, the data only under the data key. */
  lemma SavedFile(c: Config, data: Data, draw: Draw, wrapped: Wrapped)
    requires c.wrapper.wrap(c.keyName, draw.key, draw.seed) == Some(wrapped)
    ensures SavedBlob(c, data, draw).parsed == Some(Envelope(
        1, ThroughJson(c.provider), ThroughJson(c.keyName), wrapped, draw.nonce,
        Sealed(draw.key, draw.nonce, c.codec.encode(data),
               "iamly-beacon-vault:1:" + c.provider + ":" + c.keyName)))
    ensures SavedBlob(c, data, draw).raw == None
  {
    VersionOne(c.provider, c.keyName);
  }

  /** When Save returns nil. */
  predicate Saves(c: Config, data: Data, draw: Draw) {
    && |c.codec.encode(data)| <= MAX_PLAINTEXT
    && c.wrapper.wrap(c.keyName, draw.key, draw.seed).Some? && !Fails(draw.faults)
  }

  /** The secrets that Save takes into memory: the encoded data, and the data key that is drawn for it. */
  ghost function SaveSecrets(c: Config, data: Data, draw: Draw): seq<Bytes> {
    [c.codec.encode(data)] + if |c.codec.encode(data)| > MAX_PLAINTEXT then [] else [draw.key]
  }

  /**
   Store.Save. An error before the write leaves the disk alone; otherwise only the whole new file can
   join what may be found at the path, and after a nil return nothing else can be found there, power
   loss included. Every buffer it made for the plaintext and the data key is wiped on every return.
  */
  method Save(fs: FileSystem<Blob>, heap: Ledger<Byte>, c: Config, data: Data, draw: Draw)
    returns (failure: Option<SaveError>)
    requires |draw.key| == KEY_SIZE && |draw.nonce| == NONCE_SIZE
    requires WellFormed(fs.disk) && draw.temporary !in fs.disk.entries && draw.temporary != c.path
    modifies fs, heap
    ensures WellFormed(fs.disk) && old(fs.trace) <= fs.trace
    ensures OthersKept(old(fs.disk), fs.disk, {c.path, draw.temporary})
    ensures failure == Some(PayloadTooLarge) || failure == Some(WrapFailed) ==> fs.disk == old(fs.disk)
    ensures failure == Some(PayloadTooLarge) <==> |c.codec.encode(data)| > 83_886_080
    ensures failure == Some(WrapFailed) <==>
        |c.codec.encode(data)| <= MAX_PLAINTEXT && c.wrapper.wrap(c.keyName, draw.key, draw.seed).None?
    ensures failure == None <==> Saves(c, data, draw)
    ensures failure == None <==>
        && |c.codec.encode(data)| <= 83_886_080
        && c.wrapper.wrap(c.keyName, draw.key, draw.seed).Some? && !Fails(draw.faults)
    ensures failure == None || failure == Some(WriteFailed) ==>
        && c.wrapper.wrap(c.keyName, draw.key, draw.seed).Some?
        && SafeSince(fs.trace, |old(fs.trace)|, old(fs.disk), c.path, Whole(SavedBlob(c, data, draw)))
        && Within(old(fs.disk), fs.disk, c.path, Whole(SavedBlob(c, data, draw)))
        && (Read(fs.disk, c.path) == Read(old(fs.disk), c.path)
            || Read(fs.disk, c.path) == Whole(SavedBlob(c, data, draw)))
    ensures failure == None ==>
        && Read(fs.disk, c.path) == Whole(SavedBlob(c, data, draw)) && fs.disk.history == [fs.disk.entries]
        && forall found :: Survives(fs.disk, c.path, found) <==> found == Whole(SavedBlob(c, data, draw))
    ensures heap.held == old(heap.held) + SaveSecrets(c, data, draw)
    ensures SaveSecrets(c, data, draw) ==
        if failure == Some(PayloadTooLarge) then [c.codec.encode(data)] else [c.codec.encode(data), draw.key]
    ensures WipedSince(heap, old(heap.buffers)) && fresh(heap.buffers - old(heap.buffers))
  {
    OthersKeptStart(fs.disk, {c.path, draw.temporary});
    var plaintext := heap.Allocate(c.codec.encode(data));
    if plaintext.Length > MAX_PLAINTEXT {
      Wipe(plaintext);
      return Some(PayloadTooLarge);
    }
    var dek := heap.Allocate(draw.key);
    var wrapped := c.wrapper.wrap(c.keyName, dek[..], draw.seed);
    if wrapped.None? {
      Wipe(dek);
      Wipe(plaintext);
      return Some(WrapFailed);
    }
    var metadata := AuthenticatedMetadata(FORMAT_VERSION, c.provider, c.keyName);
    var file := Envelope(FORMAT_VERSION, c.provider, c.keyName, wrapped.value, draw.nonce,
                         Sealed(dek[..], draw.nonce, plaintext[..], metadata));
    var blob := Marshal(file, c.jsonText);
    assert blob == SavedBlob(c, data, draw);
    var ok := AtomicWrite(fs, c.path, blob, draw.temporary, draw.faults);
    Wipe(dek);
    Wipe(plaintext);
    failure := if ok then None else Some(WriteFailed);
  }

  // ---------------------------------------------------------------- round trip

  /** Save never checks these four; a file that breaks one of them cannot be read again. */
  ghost predicate Reloadable(c: Config, data: Data, draw: Draw)
    requires c.wrapper.wrap(c.keyName, draw.key, draw.seed).Some?
  {
    && c.keyName != "" && ValidText(c.keyName)
    && 0 < WrappedLength(c.wrapper.wrap(c.keyName, draw.key, draw.seed).value) <= MAX_WRAPPED
    && SavedBlob(c, data, draw).length <= MAX_FILE
  }

  /**
   A saved file loads, for every provider that round-trips keys, exactly when the key name is well-formed
   UTF-8 and not empty, the wrapped key has 1 to 65536 bytes and the file has at most 128 MiB. It loads as
   what JSON makes of the saved data, which is that data exactly when all its text is well-formed UTF-8.
  */
  lemma SaveLoadRoundTrip(c: Config, data: Data, draw: Draw)
    requires SupportedProvider(c.provider) && Keeps(c.codec, data)
    requires RoundTrips(c.wrapper, c.keyName) && |draw.key| == KEY_SIZE && |draw.nonce| == NONCE_SIZE
    requires c.wrapper.wrap(c.keyName, draw.key, draw.seed).Some? && |c.codec.encode(data)| <= MAX_PLAINTEXT
    ensures (exists loaded :: Loads(c, Whole(SavedBlob(c, data, draw)), loaded)) <==> Reloadable(c, data, draw)
    ensures Loads(c, Whole(SavedBlob(c, data, draw)), Normalized(data)) <==>
        Reloadable(c, data, draw) && ValidData(data)
    ensures forall loaded | Loads(c, Whole(SavedBlob(c, data, draw)), loaded) :: Returned(data, loaded)
    ensures ValidData(data) ==>
        forall loaded | Loads(c, Whole(SavedBlob(c, data, draw)), loaded) ::
          && loaded == Normalized(data) && loaded.controlPlane == data.controlPlane
          && loaded.integrations == Some(if data.integrations.Some? then data.integrations.value else map[])
  {
    var e := SealedEnvelope(c, data, draw, c.wrapper.wrap(c.keyName, draw.key, draw.seed).value);
    MarshalKeeps(e, c.jsonText);
    var back := c.codec.decode(c.codec.encode(data)).value;
    DataKept(data, back);
    if ValidText(c.keyName) {
      OwnEnvelopeLoads(c, SavedBlob(c, data, draw), e, data, draw, back);
    }
  }

  /** A file with the envelope that this store sealed: the reader's limits decide. */
  lemma OwnEnvelopeLoads(c: Config, blob: Blob, e: Envelope, data: Data, draw: Draw, back: Data)
    requires SupportedProvider(c.provider) && c.codec.decode(c.codec.encode(data)) == Some(back)
    requires |draw.key| == KEY_SIZE && |draw.nonce| == NONCE_SIZE && |c.codec.encode(data)| <= MAX_PLAINTEXT
    requires c.wrapper.unwrap(c.keyName, e.wrappedDEK) == Some(draw.key)
    requires e == SealedEnvelope(c, data, draw, e.wrappedDEK) && blob.parsed == Some(e)
    ensures Loads(c, Whole(blob), back) <==>
        blob.length <= MAX_FILE && c.keyName != "" && 0 < WrappedLength(e.wrappedDEK) <= MAX_WRAPPED
    ensures forall other | Loads(c, Whole(blob), other) :: other == back
  {
  }

  lemma ProviderAscii(provider: string)
    requires SupportedProvider(provider)
    ensures Ascii(provider)
  {
  }

  /** An envelope comes back from JSON as it was, or with another key name. */
  lemma MarshalKeeps(e: Envelope, jsonText: string -> nat)
    requires SupportedProvider(e.provider)
    ensures ValidText(e.keyName) ==> Marshal(e, jsonText).parsed == Some(e)
    ensures !ValidText(e.keyName) ==> Marshal(e, jsonText).parsed.value.keyName != e.keyName
  {
    ProviderAscii(e.provider);
    AsciiKept(e.provider);
    JsonKeeps(e.keyName);
  }

  /** An ordinary key name and wrapped key meet all limits of readEnvelope. */
  lemma OrdinaryReloads(c: Config, data: Data, draw: Draw)
    requires SupportedProvider(c.provider) && |draw.nonce| == NONCE_SIZE && |c.codec.encode(data)| <= MAX_PLAINTEXT
    requires JsonText(c.jsonText) && 0 < |c.keyName| <= 3_500_000 && ValidText(c.keyName)
    requires c.wrapper.wrap(c.keyName, draw.key, draw.seed).Some?
    requires 0 < WrappedLength(c.wrapper.wrap(c.keyName, draw.key, draw.seed).value) <= MAX_WRAPPED
    ensures Reloadable(c, data, draw)
  {
    EnvelopeFits(SealedEnvelope(c, data, draw, c.wrapper.wrap(c.keyName, draw.key, draw.seed).value), c.jsonText);
  }

  /** For an ordinary provider and key name every saved vault loads. */
  lemma SavedVaultLoads(c: Config, data: Data, draw: Draw)
    requires SupportedProvider(c.provider) && Keeps(c.codec, data)
    requires RoundTrips(c.wrapper, c.keyName) && |draw.key| == KEY_SIZE && |draw.nonce| == NONCE_SIZE
    requires c.wrapper.wrap(c.keyName, draw.key, draw.seed).Some? && |c.codec.encode(data)| <= MAX_PLAINTEXT
    requires JsonText(c.jsonText) && 0 < |c.keyName| <= 3_500_000 && ValidText(c.keyName) && ValidData(data)
    requires 0 < WrappedLength(c.wrapper.wrap(c.keyName, draw.key, draw.seed).value) <= MAX_WRAPPED
    ensures Loads(c, Whole(SavedBlob(c, data, draw)), Normalized(data))
    ensures data.integrations.Some? ==> Loads(c, Whole(SavedBlob(c, data, draw)), data)
  {
    OrdinaryReloads(c, data, draw);
    SaveLoadRoundTrip(c, data, draw);
  }

  /** A store, its data and a draw with which Save returns nil. */
  ghost predicate SavesWell(c: Config, data: Data, draw: Draw) {
    && SupportedProvider(c.provider) && Keeps(c.codec, data) && RoundTrips(c.wrapper, c.keyName)
    && |draw.key| == KEY_SIZE && |draw.nonce| == NONCE_SIZE && Saves(c, data, draw)
  }

  function Padded(size: nat, key: Bytes): Bytes { seq(size, _ => 0) + key }

  /** A cloud provider that wraps a key by writing `size` zeros before it. */
  function PaddingWrapper(size: nat): KeyWrapper {
    KeyWrapper(
      (keyName, key: Bytes, seed: nat) => Some(Remote(Padded(size, key))),
      (keyName, wrapped: Wrapped) =>
        if wrapped.Remote? && |wrapped.bytes| >= size then Some(wrapped.bytes[size..]) else None)
  }

  lemma PaddingRoundTrips(size: nat, keyName: string)
    ensures RoundTrips(PaddingWrapper(size), keyName)
  {
    forall key: Bytes
      ensures Padded(size, key)[size..] == key
    {
    }
  }

  /** One key of the map that JSON turns into this one. */
  ghost function Source<T>(m: map<string, T>, k: string): (from: string)
    requires exists other :: other in m && ThroughJson(other) == k
    ensures from in m && ThroughJson(from) == k
  {
    var from :| from in m && ThroughJson(from) == k;
    from
  }

  ghost function MapImage<T>(m: map<string, T>, image: T -> T): map<string, T> {
    map k | k in (set from | from in m :: ThroughJson(from)) :: image(m[Source(m, k)])
  }

  ghost function CredentialsImage(credentials: Credentials): Credentials { MapImage(credentials, ThroughJson) }

  /** What JSON may make of the data. */
  ghost function Image(data: Data): Data {
    Data(PlaneThroughJson(data.controlPlane), Some(MapImage(Normalized(data).integrations.value, CredentialsImage)))
  }

  lemma MapImageReturned<T(!new)>(m: map<string, T>, image: T -> T, returned: (T, T) -> bool)
    requires forall x :: returned(x, image(x))
    ensures MapReturned(m, MapImage(m, image), returned)
  {
    var back := MapImage(m, image);
    forall k | k in back
      ensures exists from | from in m :: ThroughJson(from) == k && returned(m[from], back[k])
    {
      var from := Source(m, k);
      assert returned(m[from], image(m[from]));
    }
  }

  lemma ImageReturned(data: Data)
    ensures Returned(data, Image(data))
  {
    forall x
      ensures CredentialsReturned(x, CredentialsImage(x))
    {
      MapImageReturned(x, ThroughJson, TextReturned);
    }
    MapImageReturned(Normalized(data).integrations.value, CredentialsImage, CredentialsReturned);
  }

  ghost function Example(keyName: string, size: nat, data: Data): Config {
    Config("vault.bin", PROVIDER_GOOGLE, keyName, PaddingWrapper(size),
           Codec(_ => [], _ => Some(Image(data))), text => |text| + 2)
  }

  function ExampleDraw(): Draw {
    Draw(seq(KEY_SIZE, _ => 0), seq(NONCE_SIZE, _ => 0), 0, "temporary",
         Faults(false, false, false, false, false, false, false, false, false, false, false))
  }

  lemma ExampleSaves(keyName: string, size: nat, data: Data)
    ensures SavesWell(Example(keyName, size, data), data, ExampleDraw())
    ensures WrappedLength(Example(keyName, size, data).wrapper.wrap(keyName, ExampleDraw().key, 0).value) ==
        size + KEY_SIZE
  {
    PaddingRoundTrips(size, keyName);
    ImageReturned(data);
  }

  /** A wrapped key of 65537 bytes: Save returns nil, and the vault never loads. */
  lemma LargeWrapLost(data: Data) returns (c: Config, draw: Draw)
    ensures SavesWell(c, data, draw) && WrappedLength(c.wrapper.wrap(c.keyName, draw.key, draw.seed).value) == 65537
    ensures forall other :: !Loads(c, Whole(SavedBlob(c, data, draw)), other)
  {
    c, draw := Example("key", 65537 - KEY_SIZE, data), ExampleDraw();
    ExampleSaves("key", 65537 - KEY_SIZE, data);
    SaveLoadRoundTrip(c, data, draw);
  }

  /** A key name that is not UTF-8: Save returns nil, and the vault never loads. */
  lemma StrangeNameLost(data: Data) returns (c: Config, draw: Draw)
    ensures SavesWell(c, data, draw) && c.keyName == [0xFF as char]
    ensures forall other :: !Loads(c, Whole(SavedBlob(c, data, draw)), other)
  {
    c, draw := Example([0xFF as char], KEY_SIZE, data), ExampleDraw();
    ExampleSaves([0xFF as char], KEY_SIZE, data);
    SaveLoadRoundTrip(c, data, draw);
  }

  lemma ExampleReloads(data: Data)
    ensures Example("key", 0, data).wrapper.wrap("key", ExampleDraw().key, 0).Some?
    ensures Reloadable(Example("key", 0, data), data, ExampleDraw())
  {
    var c, draw := Example("key", 0, data), ExampleDraw();
    ExampleSaves("key", 0, data);
    AsciiIsValid("key");
    OrdinaryReloads(c, data, draw);
  }

  /** Text that is not UTF-8: Save returns nil and the vault loads, but not as the data that was saved. */
  lemma StrangeTextChanged(data: Data) returns (c: Config, draw: Draw)
    requires !ValidData(data)
    ensures SavesWell(c, data, draw) && exists loaded :: Loads(c, Whole(SavedBlob(c, data, draw)), loaded)
    ensures !Loads(c, Whole(SavedBlob(c, data, draw)), Normalized(data))
  {
    c, draw := Example("key", 0, data), ExampleDraw();
    ExampleSaves("key", 0, data);
    ExampleReloads(data);
    SaveLoadRoundTrip(c, data, draw);
  }

  // ---------------------------------------------------------------- tampering

  /** Under this key nothing else was ever sealed: Save draws a key for one file. */
  ghost predicate SealedOnceWith(key: Bytes, c: Cipher, original: Cipher) {
    c.Sealed? && c.key == key ==> c == original
  }

  /**
   A file that unwraps to the data key of a saved envelope loads only if its provider, key name,
   nonce and ciphertext are the saved ones, and then as the saved data.
  */
  lemma TamperedNeverLoads(
      saver: Config, data: Data, draw: Draw, wrapped: Wrapped, loader: Config, found: Found<Blob>, loaded: Data)
    requires SupportedProvider(saver.provider) && Loads(loader, found, loaded)
    requires var e := found.blob.parsed.value;
      && loader.wrapper.unwrap(e.keyName, e.wrappedDEK) == Some(draw.key)
      && SealedOnceWith(draw.key, e.ciphertext, SealedEnvelope(saver, data, draw, wrapped).ciphertext)
    ensures var e, saved := found.blob.parsed.value, SealedEnvelope(saver, data, draw, wrapped);
      && e == saved.(wrappedDEK := e.wrappedDEK)
      && loader.codec.decode(saver.codec.encode(data)) == Some(loaded)
  {
    var e := found.blob.parsed.value;
    MetadataInjective(e.version, e.provider, e.keyName, FORMAT_VERSION, saver.provider, saver.keyName);
  }
}
