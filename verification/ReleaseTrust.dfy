/**
 internal/releasetrust/manifest.go with ideal signatures: a signature is the term it was made as,
 and it verifies under a public key exactly when the matching private key made it over the message.
*/
module ReleaseTrust {
  import opened Wire
  import opened Utf8
  import SortedText
  import Text

  const DOMAIN := "iamly-beacon-release-manifest-v1"
  const PRIVATE_KEY_SIZE := 64

  datatype PrivateKey = PrivateKey(pair: nat, size: nat)
  datatype PublicKey = PublicKey(pair: nat)

  function Public(key: PrivateKey): PublicKey { PublicKey(key.pair) }

  /** Bytes that decode from base64: made by a key pair over a message, or made by nobody. */
  datatype SignatureBytes = Signed(pair: nat, message: string) | Junk(text: string)

  function SignMessage(key: PrivateKey, message: string): SignatureBytes { Signed(key.pair, message) }

  predicate Valid(key: PublicKey, message: string, signature: SignatureBytes) {
    signature == Signed(key.pair, message)
  }

  /** One entry of the envelope; the signature is absent when its base64 does not decode. */
  datatype Signature = Signature(keyID: string, signature: Option<SignatureBytes>)

  // ---------------------------------------------------------------- the message

  function MessageOf(version: string, checksums: string): string {
    DOMAIN + "\n" + version + "\n" + checksums
  }

  method Message(version: string, checksums: string) returns (message: string)
    ensures message == MessageOf(version, checksums)
    ensures message == "iamly-beacon-release-manifest-v1\n" + version + "\n" + checksums
  {
    message := [];
    message := message + DOMAIN;
    message := message + ['\n'];
    message := message + version;
    message := message + ['\n'];
    message := message + checksums;
  }

  /** A version without newlines can be read back from the message, and with it the checksum file. */
  lemma MessageInjective(v1: string, c1: string, v2: string, c2: string)
    requires '\n' !in v1 && '\n' !in v2 && MessageOf(v1, c1) == MessageOf(v2, c2)
    ensures v1 == v2 && c1 == c2
    ensures MessageOf(v1, c1) == "iamly-beacon-release-manifest-v1\n" + v1 + "\n" + c1
  {
    var n := |DOMAIN + "\n"|;
    var m1, m2 := MessageOf(v1, c1), MessageOf(v2, c2);
    assert m1[n..] == v1 + "\n" + c1 && m2[n..] == v2 + "\n" + c2;
    Text.FirstSeparator(v1, c1, v2, c2, '\n');
  }

  // ---------------------------------------------------------------- signing

  /** Every key signed once, in ascending order of key id. */
  ghost predicate SignedBy(envelope: seq<Signature>, message: string, keys: map<string, PrivateKey>) {
    && (forall i | 0 <= i < |envelope| ::
        && envelope[i].keyID in keys
        && envelope[i].signature == Some(SignMessage(keys[envelope[i].keyID], message)))
    && (forall id | id in keys :: exists i :: 0 <= i < |envelope| && envelope[i].keyID == id)
    && (forall i, j | 0 <= i < j < |envelope| :: Text.Less(envelope[i].keyID, envelope[j].keyID))
  }

  /** What is read back after the envelope was written as JSON. */
  function Transported(envelope: seq<Signature>): (read: seq<Signature>)
    ensures |read| == |envelope|
  {
    if envelope == [] then []
    else
      var last := envelope[|envelope| - 1];
      Transported(envelope[..|envelope| - 1]) + [last.(keyID := ThroughJson(last.keyID))]
  }

  lemma {:induction false} TransportedAt(envelope: seq<Signature>, k: nat)
    requires k < |envelope|
    ensures Transported(envelope)[k] == envelope[k].(keyID := ThroughJson(envelope[k].keyID))
  {
    if k < |envelope| - 1 {
      TransportedAt(envelope[..|envelope| - 1], k);
    }
  }

  /** What Verify decodes of a release that was signed with these keys. */
  ghost predicate SignedRelease(encoded: seq<Signature>, message: string, keys: map<string, PrivateKey>) {
    exists envelope: seq<Signature> :: SignedBy(envelope, message, keys) && encoded == Transported(envelope)
  }

  method Sign(version: string, checksums: string, keys: map<string, PrivateKey>)
    returns (encoded: Option<seq<Signature>>)
    ensures encoded.Some? <==> keys.Keys != {} && forall id | id in keys :: id != "" && keys[id].size == 64
    ensures encoded.Some? ==> SignedRelease(encoded.value, MessageOf(version, checksums), keys)
  {
    if |keys| == 0 {
      assert keys.Keys == {};
      return None;
    }
    var message := Message(version, checksums);
    var keyIDs := SortedText.SortedKeys(keys.Keys);
    var envelope := SignEach(keyIDs, keys, message);
    if envelope.None? {
      return None;
    }
    AllEntries(envelope.value, keyIDs, message, keys);
    encoded := Some(Transported(envelope.value));
  }

  /** A signed release by its entries: one for each key, in ascending order of the ids. */
  lemma SignedEntries(encoded: seq<Signature>, message: string, keys: map<string, PrivateKey>)
    returns (ids: seq<string>)
    requires SignedRelease(encoded, message, keys)
    ensures forall id :: id in ids <==> id in keys
    ensures forall i, j | 0 <= i < j < |ids| :: Text.Less(ids[i], ids[j])
    ensures |encoded| == |ids|
    ensures forall i | 0 <= i < |ids| ::
        encoded[i] == Signature(ThroughJson(ids[i]), Some(Signed(keys[ids[i]].pair, message)))
  {
    var envelope: seq<Signature> :| SignedBy(envelope, message, keys) && encoded == Transported(envelope);
    ids := seq(|envelope|, i requires 0 <= i < |envelope| => envelope[i].keyID);
    forall id | id in keys
      ensures id in ids
    {
      var i :| 0 <= i < |envelope| && envelope[i].keyID == id;
      assert ids[i] == id;
    }
    forall i | 0 <= i < |ids|
      ensures encoded[i] == Signature(ThroughJson(ids[i]), Some(Signed(keys[ids[i]].pair, message)))
    {
      TransportedAt(envelope, i);
    }
  }

  /** The signing loop. */
  method SignEach(keyIDs: seq<string>, keys: map<string, PrivateKey>, message: string)
    returns (envelope: Option<seq<Signature>>)
    requires forall i | 0 <= i < |keyIDs| :: keyIDs[i] in keys
    ensures envelope.Some? <==> forall i | 0 <= i < |keyIDs| :: Usable(keyIDs[i], keys)
    ensures envelope.Some? ==> |envelope.value| == |keyIDs|
    ensures envelope.Some? ==> forall i | 0 <= i < |keyIDs| :: envelope.value[i] == Entry(keyIDs[i], keys, message)
  {
    var signatures: seq<Signature> := [];
    for i := 0 to |keyIDs|
      invariant |signatures| == i
      invariant forall j | 0 <= j < i :: Usable(keyIDs[j], keys)
      invariant forall j | 0 <= j < i :: signatures[j] == Entry(keyIDs[j], keys, message)
    {
      var keyID := keyIDs[i];
      var privateKey := keys[keyID];
      if keyID == "" || privateKey.size != PRIVATE_KEY_SIZE {
        return None;
      }
      signatures := signatures + [Signature(keyID, Some(SignMessage(privateKey, message)))];
    }
    return Some(signatures);
  }

  predicate Usable(keyID: string, keys: map<string, PrivateKey>)
    requires keyID in keys
  {
    keyID != "" && keys[keyID].size == PRIVATE_KEY_SIZE
  }

  function Entry(keyID: string, keys: map<string, PrivateKey>, message: string): Signature
    requires keyID in keys
  {
    Signature(keyID, Some(SignMessage(keys[keyID], message)))
  }

  lemma AllEntries(signatures: seq<Signature>, keyIDs: seq<string>, message: string, keys: map<string, PrivateKey>)
    requires forall id :: id in keyIDs <==> id in keys
    requires forall i, j | 0 <= i < j < |keyIDs| :: Text.Less(keyIDs[i], keyIDs[j])
    requires |signatures| == |keyIDs|
    requires forall j | 0 <= j < |keyIDs| :: signatures[j] == Entry(keyIDs[j], keys, message)
    ensures SignedBy(signatures, message, keys)
  {
    forall id | id in keys
      ensures exists j :: 0 <= j < |signatures| && signatures[j].keyID == id
    {
      var j :| 0 <= j < |keyIDs| && keyIDs[j] == id;
      assert signatures[j].keyID == id;
    }
  }

  // ---------------------------------------------------------------- verifying

  /** Entry k is by a trusted key over this release, and no key id was repeated up to it. */
  ghost predicate AcceptedAt(
      version: string, checksums: string, envelope: seq<Signature>, trusted: map<string, PublicKey>, k: nat) {
    && k < |envelope|
    && (forall i, j | 0 <= i < j <= k :: envelope[i].keyID != envelope[j].keyID)
    && envelope[k].keyID in trusted && envelope[k].signature.Some?
    && Valid(trusted[envelope[k].keyID], MessageOf(version, checksums), envelope[k].signature.value)
  }

  ghost predicate Accepted(
      version: string, checksums: string, envelope: seq<Signature>, trusted: map<string, PublicKey>) {
    exists k: nat :: AcceptedAt(version, checksums, envelope, trusted, k)
  }

  /** Acceptance by entries: one that a trusted key made over the message, with no key id repeated up to it. */
  lemma AcceptedMeans(
      version: string, checksums: string, envelope: seq<Signature>, trusted: map<string, PublicKey>)
    ensures Accepted(version, checksums, envelope, trusted) <==>
        exists k: nat ::
          && k < |envelope| && envelope[k].keyID in trusted
          && envelope[k].signature == Some(Signed(trusted[envelope[k].keyID].pair, MessageOf(version, checksums)))
          && forall i, j | 0 <= i < j <= k :: envelope[i].keyID != envelope[j].keyID
  {
    if k: nat :| AcceptedAt(version, checksums, envelope, trusted, k) {
      assert envelope[k].signature == Some(envelope[k].signature.value);
    }
    if k: nat :|
      && k < |envelope| && envelope[k].keyID in trusted
      && envelope[k].signature == Some(Signed(trusted[envelope[k].keyID].pair, MessageOf(version, checksums)))
      && forall i, j | 0 <= i < j <= k :: envelope[i].keyID != envelope[j].keyID
    {
      assert AcceptedAt(version, checksums, envelope, trusted, k);
    }
  }

  /** `encoded` is absent when the signature file is not JSON of the right shape. */
  method Verify(version: string, checksums: string, encoded: Option<seq<Signature>>, trusted: map<string, PublicKey>)
    returns (ok: bool)
    ensures ok <==> encoded.Some? && Accepted(version, checksums, encoded.value, trusted)
  {
    if encoded.None? || |encoded.value| == 0 {
      return false;
    }
    var envelope := encoded.value;
    var message := Message(version, checksums);
    var seen: set<string> := {};
    for i := 0 to |envelope|
      invariant forall id :: id in seen <==> exists j :: 0 <= j < i && envelope[j].keyID == id
      invariant forall j, k | 0 <= j < k < i :: envelope[j].keyID != envelope[k].keyID
      invariant forall k: nat | k < i :: !AcceptedAt(version, checksums, envelope, trusted, k)
    {
      var candidate := envelope[i];
      if candidate.keyID in seen {
        return false;
      }
      seen := seen + {candidate.keyID};
      if candidate.keyID !in trusted {
        continue;
      }
      if candidate.signature.Some? && Valid(trusted[candidate.keyID], message, candidate.signature.value) {
        assert AcceptedAt(version, checksums, envelope, trusted, i);
        return true;
      }
    }
    return false;
  }

  // ---------------------------------------------------------------- what it is for

  /** Some signing key is trusted under its own id. */
  ghost predicate SomeTrusted(keys: map<string, PrivateKey>, trusted: map<string, PublicKey>) {
    exists id :: id in keys && id in trusted && trusted[id] == Public(keys[id])
  }

  ghost predicate ValidIDs(keys: map<string, PrivateKey>) {
    forall id | id in keys :: ValidText(id)
  }

  lemma ValidEnvelopeKept(envelope: seq<Signature>, message: string, keys: map<string, PrivateKey>)
    requires SignedBy(envelope, message, keys) && ValidIDs(keys)
    ensures Transported(envelope) == envelope
  {
    forall i | 0 <= i < |envelope|
      ensures Transported(envelope)[i] == envelope[i]
    {
      TransportedAt(envelope, i);
      JsonKeeps(envelope[i].keyID);
    }
  }

  lemma SignersAccepted(
      version: string, checksums: string, envelope: seq<Signature>,
      keys: map<string, PrivateKey>, trusted: map<string, PublicKey>)
    requires SignedBy(envelope, MessageOf(version, checksums), keys)
    ensures Accepted(version, checksums, envelope, trusted) <==> SomeTrusted(keys, trusted)
  {
    forall i, j | 0 <= i < j < |envelope|
      ensures envelope[i].keyID != envelope[j].keyID
    {
      Text.CompareFlips(envelope[i].keyID, envelope[j].keyID);
    }
    if id :| id in keys && id in trusted && trusted[id] == Public(keys[id]) {
      var i :| 0 <= i < |envelope| && envelope[i].keyID == id;
      assert AcceptedAt(version, checksums, envelope, trusted, i);
    }
    if k: nat :| AcceptedAt(version, checksums, envelope, trusted, k) {
      var id := envelope[k].keyID;
      assert id in keys && id in trusted && trusted[id] == Public(keys[id]);
    }
  }

  /** When every key id is well-formed UTF-8, a signed release verifies exactly when some signing key is trusted. */
  lemma SignThenVerify(
      version: string, checksums: string, encoded: seq<Signature>,
      keys: map<string, PrivateKey>, trusted: map<string, PublicKey>)
    requires SignedRelease(encoded, MessageOf(version, checksums), keys) && ValidIDs(keys)
    ensures Accepted(version, checksums, encoded, trusted) <==> SomeTrusted(keys, trusted)
  {
    var envelope: seq<Signature> :|
      SignedBy(envelope, MessageOf(version, checksums), keys) && encoded == Transported(envelope);
    ValidEnvelopeKept(envelope, MessageOf(version, checksums), keys);
    SignersAccepted(version, checksums, envelope, keys, trusted);
  }

  /** Trust in a key id that is not well-formed UTF-8 is worth nothing: JSON has changed the id. */
  lemma UnreadableID(
      version: string, checksums: string, encoded: seq<Signature>, keys: map<string, PrivateKey>, id: string)
    requires SignedRelease(encoded, MessageOf(version, checksums), keys) && id in keys && !ValidText(id)
    ensures !Accepted(version, checksums, encoded, map[id := Public(keys[id])])
    ensures SomeTrusted(keys, map[id := Public(keys[id])])
  {
    var trusted := map[id := Public(keys[id])];
    var envelope: seq<Signature> :|
      SignedBy(envelope, MessageOf(version, checksums), keys) && encoded == Transported(envelope);
    forall k: nat | k < |encoded|
      ensures encoded[k].keyID != id
    {
      TransportedAt(envelope, k);
      JsonIsValid(envelope[k].keyID);
    }
    assert id in trusted && trusted[id] == Public(keys[id]);
  }

  /** Verification means trust, whatever is trusted, exactly when every key id is well-formed UTF-8. */
  lemma VerifyMeansTrust(version: string, checksums: string, encoded: seq<Signature>, keys: map<string, PrivateKey>)
    requires SignedRelease(encoded, MessageOf(version, checksums), keys)
    ensures (forall trusted :: Accepted(version, checksums, encoded, trusted) <==> SomeTrusted(keys, trusted)) <==>
        ValidIDs(keys)
  {
    if ValidIDs(keys) {
      forall trusted
        ensures Accepted(version, checksums, encoded, trusted) <==> SomeTrusted(keys, trusted)
      {
        SignThenVerify(version, checksums, encoded, keys, trusted);
      }
    } else {
      var id :| id in keys && !ValidText(id);
      UnreadableID(version, checksums, encoded, keys, id);
    }
  }

  /** A release signed with an old and a new key verifies for clients that trust either or both. */
  lemma TransitionRelease(
      version: string, checksums: string, encoded: seq<Signature>, keys: map<string, PrivateKey>,
      oldID: string, newID: string, trusted: map<string, PublicKey>)
    requires SignedRelease(encoded, MessageOf(version, checksums), keys) && ValidIDs(keys)
    requires oldID in keys && newID in keys
    requires trusted == map[oldID := Public(keys[oldID])] || trusted == map[newID := Public(keys[newID])]
        || trusted == map[oldID := Public(keys[oldID]), newID := Public(keys[newID])]
    ensures Accepted(version, checksums, encoded, trusted)
  {
    SignThenVerify(version, checksums, encoded, keys, trusted);
    assert oldID in trusted || newID in trusted;
  }

  /** Every signature in the envelope that a trusted key made, it made for a published release. */
  ghost predicate OnlyPublished(
      envelope: seq<Signature>, trusted: map<string, PublicKey>, published: set<(string, string)>) {
    forall i, id | 0 <= i < |envelope| && id in trusted
      && envelope[i].signature.Some? && envelope[i].signature.value.Signed?
      && envelope[i].signature.value.pair == trusted[id].pair ::
        exists release :: release in published
          && envelope[i].signature.value.message == MessageOf(release.0, release.1)
  }

  /**
   Acceptance pins the release: whatever envelope is presented, an accepted version and checksum
   file are exactly those of a release the trusted keys signed, so no signature can be replayed
   for another tag or another checksum file.
  */
  lemma AcceptancePins(
      version: string, checksums: string, envelope: seq<Signature>,
      trusted: map<string, PublicKey>, published: set<(string, string)>)
    requires Accepted(version, checksums, envelope, trusted) && OnlyPublished(envelope, trusted, published)
    requires '\n' !in version && forall release | release in published :: '\n' !in release.0
    ensures (version, checksums) in published
  {
    var k: nat :| AcceptedAt(version, checksums, envelope, trusted, k);
    var id := envelope[k].keyID;
    assert envelope[k].signature.value.pair == trusted[id].pair;
    var release :| release in published && MessageOf(version, checksums) == MessageOf(release.0, release.1);
    MessageInjective(version, checksums, release.0, release.1);
  }
}
