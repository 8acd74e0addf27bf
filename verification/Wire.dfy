/**
 * The signed records that cross the wire, and the primitives the model keeps uninterpreted: the
 * hash, signature checks and the postcard codecs. A codec is only ever assumed to undo itself.
 */
module Wire {
  import opened Prelude

  const MAX_WIRE: nat := 65_536
  const LOG_LIMIT: nat := 256

  datatype Codec<!T> = Codec(encode: T -> Bytes, decode: Bytes -> Option<T>)

  /** `wire::encode`: refuses what does not fit into one frame. */
  function Encode<T>(codec: Codec<T>, value: T): Option<Bytes> {
    var bytes := codec.encode(value);
    if |bytes| <= MAX_WIRE then Some(bytes) else None
  }

  /** `wire::decode`: refuses what could not have been sent. */
  function Decode<T>(codec: Codec<T>, bytes: Bytes): Option<T> {
    if |bytes| <= MAX_WIRE then codec.decode(bytes) else None
  }

  ghost predicate RoundTrips<T(!new)>(codec: Codec<T>) {
    forall value: T :: codec.decode(codec.encode(value)) == Some(value)
  }

  datatype Payload = Payload(
    protocolVersion: nat,
    userId: string,
    deviceId: string,
    natsKey: string,
    mlsCredential: Bytes,
    mlsKeyPackage: Bytes,
    generation: nat,
    createdAt: int)

  datatype Registration = Registration(payload: Payload, signature: Bytes)

  datatype Checkpoint = Checkpoint(version: nat, size: nat, root: Digest, signer: string, signature: Bytes)

  datatype Snapshot = Snapshot(checkpoint: Checkpoint, entries: seq<Registration>)

  datatype RevokeRequest = RevokeRequest(
    version: nat,
    user: string,
    device: string,
    nkey: string,
    author: string,
    signature: Bytes)

  datatype Revocation = Revocation(request: RevokeRequest, chatCutoff: nat)

  datatype RevocationLog = RevocationLog(checkpoint: Checkpoint, entries: seq<Revocation>)

  /** The parts of an MLS KeyPackage that are read without validating it. */
  datatype KeyPackage = KeyPackage(credential: Bytes, signatureKey: Bytes)

  /** An NKey pair that can sign; nothing ties `sign` to `verifies`. */
  datatype SigningKey = SigningKey(public: string, sign: Bytes -> Bytes)

  datatype Primitives = Primitives(
    hash: Bytes -> Digest,
    publicKey: string -> bool,
    verifies: (string, Bytes, Bytes) -> bool,
    keyPackage: Bytes -> Option<KeyPackage>,
    payloadMessage: Payload -> Bytes,
    snapshotMessage: Checkpoint -> Bytes,
    revocationMessage: Checkpoint -> Bytes,
    requestMessage: RevokeRequest -> Bytes,
    fingerprintMessage: (Payload, Bytes) -> Bytes,
    registrations: Codec<Registration>,
    revocations: Codec<Revocation>,
    snapshots: Codec<Snapshot>,
    logs: Codec<RevocationLog>)
  {
    /** All that is assumed of the primitives. */
    ghost predicate Sane() {
      RoundTrips(registrations) && RoundTrips(revocations) && RoundTrips(snapshots) && RoundTrips(logs)
    }
  }

  predicate ValidIdChar(c: char) {
    'a' <= c <= 'z' || '0' <= c <= '9' || c == '-'
  }

  predicate ValidId(id: string) {
    0 < |id| <= 32 && forall i | 0 <= i < |id| :: ValidIdChar(id[i])
  }

  /** `RegistrationPayload::key`: the endpoint a registration speaks for. */
  function Endpoint(user: string, device: string): string {
    "users." + user + ".devices." + device
  }

  function EndpointOf(r: Registration): string {
    Endpoint(r.payload.userId, r.payload.deviceId)
  }

  /** Valid identifiers contain no dot, so an endpoint name determines both parts. */
  lemma EndpointInjective(u: string, d: string, u': string, d': string)
    requires ValidId(u) && ValidId(u')
    ensures Endpoint(u, d) == Endpoint(u', d') <==> u == u' && d == d'
  {
    var e, e' := Endpoint(u, d), Endpoint(u', d');
    if e == e' {
      assert e[6 + |u|] == '.' && e'[6 + |u'|] == '.';
      assert forall i | 0 <= i < |u| :: e[6 + i] == u[i] && ValidIdChar(u[i]);
      assert forall i | 0 <= i < |u'| :: e'[6 + i] == u'[i] && ValidIdChar(u'[i]);
      assert u == e[6..6 + |u|] && u' == e'[6..6 + |u'|];
      assert d == e[6 + |u| + 9..] && d' == e'[6 + |u'| + 9..];
    }
  }

  /** `identity::verify_signature`. */
  predicate ValidRegistration(p: Primitives, r: Registration) {
    && ValidId(r.payload.userId)
    && ValidId(r.payload.deviceId)
    && r.payload.protocolVersion == 1 && r.payload.generation == 1 && r.payload.createdAt > 0
    && "U" <= r.payload.natsKey
    && p.publicKey(r.payload.natsKey)
    && p.verifies(r.payload.natsKey, p.payloadMessage(r.payload), r.signature)
  }
}
