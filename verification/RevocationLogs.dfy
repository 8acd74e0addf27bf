/** The signed, append-only revocation log: crates/epochgrid-core/src/revocation.rs. */
module RevocationLogs {
  import opened Prelude
  import opened Wire
  import opened Merkle
  import opened Transparency

  function RevocationLeaf(p: Primitives): Revocation -> Option<Bytes> {
    r => Some(p.revocations.encode(r))
  }

  function RevocationRoot(p: Primitives, entries: seq<Revocation>): Option<Digest> {
    Root(p.hash, RevocationLeaf(p), entries)
  }

  predicate Revokes(entries: seq<Revocation>, nkey: string) {
    exists i | 0 <= i < |entries| :: entries[i].request.nkey == nkey
  }

  /** What `RevokeRequest::validate` accepts after the revocations in `previous`. */
  predicate ValidRequest(p: Primitives, q: RevokeRequest, registrations: Snapshot, previous: seq<Revocation>) {
    && ValidId(q.user) && ValidId(q.device) && q.version == 1
    && p.publicKey(q.author)
    && p.verifies(q.author, p.requestMessage(q.(signature := [])), q.signature)
    && (exists r | r in registrations.entries ::
          r.payload.userId == q.user && r.payload.deviceId == q.device && r.payload.natsKey == q.nkey)
    && !Revokes(previous, q.author)
    && (q.author == registrations.checkpoint.signer
        || exists r | r in registrations.entries :: r.payload.natsKey == q.author && r.payload.userId == q.user)
  }

  function RevocationMessage(p: Primitives, cp: Checkpoint): Bytes {
    p.revocationMessage(cp.(signature := []))
  }

  predicate ValidLogHeader(p: Primitives, log: RevocationLog, registrations: Snapshot) {
    && ValidSnapshot(p, registrations)
    && |log.entries| <= LOG_LIMIT && log.checkpoint.size == |log.entries| && log.checkpoint.version == 1
    && log.checkpoint.signer == registrations.checkpoint.signer
    && p.publicKey(log.checkpoint.signer)
    && p.verifies(log.checkpoint.signer, RevocationMessage(p, log.checkpoint), log.checkpoint.signature)
    && RevocationRoot(p, log.entries) == Some(log.checkpoint.root)
    && Encode(p.logs, log).Some?
  }

  predicate ValidEntry(p: Primitives, entries: seq<Revocation>, i: nat, registrations: Snapshot)
    requires i < |entries|
  {
    && ValidRequest(p, entries[i].request, registrations, entries[..i])
    && !Revokes(entries[..i], entries[i].request.nkey)
    && entries[i].chatCutoff <= I64_MAX
  }

  /** What `RevocationLog::validate` accepts. */
  predicate ValidLog(p: Primitives, log: RevocationLog, registrations: Snapshot) {
    && ValidLogHeader(p, log, registrations)
    && forall i | 0 <= i < |log.entries| :: ValidEntry(p, log.entries, i, registrations)
  }

  /** `RevocationLog::validate`, with the set of keys seen so far. */
  method ValidateLog(p: Primitives, log: RevocationLog, registrations: Snapshot) returns (valid: bool)
    ensures valid <==> ValidLog(p, log, registrations)
  {
    if !ValidLogHeader(p, log, registrations) {
      return false;
    }
    var keys: set<string> := {};
    for i := 0 to |log.entries|
      invariant keys == set j | 0 <= j < i :: log.entries[j].request.nkey
      invariant forall j | 0 <= j < i :: ValidEntry(p, log.entries, j, registrations)
    {
      var entry := log.entries[i];
      assert forall j | 0 <= j < i :: log.entries[..i][j] == log.entries[j];
      assert entry.request.nkey in keys <==> Revokes(log.entries[..i], entry.request.nkey);
      var fine := ValidRequest(p, entry.request, registrations, log.entries[..i]) && entry.request.nkey !in keys
          && entry.chatCutoff <= I64_MAX;
      assert fine <==> ValidEntry(p, log.entries, i, registrations);
      if !fine {
        return false;
      }
      keys := keys + {entry.request.nkey};
    }
    return true;
  }

  /** `RevocationLog::signed`: checks only that the log can be sent. */
  function SignedLog(p: Primitives, key: SigningKey, entries: seq<Revocation>): Option<RevocationLog> {
    match RevocationRoot(p, entries)
    case None => None
    case Some(root) =>
      var cp := Checkpoint(1, |entries|, root, key.public, []);
      var log := RevocationLog(cp.(signature := key.sign(RevocationMessage(p, cp))), entries);
      if Encode(p.logs, log).Some? then Some(log) else None
  }

  lemma RevocationLeafInjective(p: Primitives)
    requires RoundTrips(p.revocations)
    ensures Injective(RevocationLeaf(p))
  {
    var leaf := RevocationLeaf(p);
    forall x: Revocation, y: Revocation | leaf(x).Some? && leaf(x) == leaf(y) ensures x == y {
      assert p.revocations.decode(p.revocations.encode(x)) == Some(x);
      assert p.revocations.decode(p.revocations.encode(y)) == Some(y);
    }
  }

  /** The two checks `accept_revocations` makes against the stored checkpoint. */
  predicate LogExtends(p: Primitives, log: RevocationLog, previous: Checkpoint) {
    && log.checkpoint.signer == previous.signer
    && |log.entries| >= previous.size
    && RevocationRoot(p, log.entries[..previous.size]) == Some(previous.root)
  }

  /** The same for two revocation logs. */
  ghost predicate LogClash(p: Primitives, earlier: RevocationLog, later: RevocationLog) {
    PrefixClash(p.hash, RevocationLeaf(p), earlier.entries, later.entries)
  }

  lemma LogExtendsIsPrefix(p: Primitives, log: RevocationLog, s: Snapshot, previous: RevocationLog, s': Snapshot)
    requires p.Sane() && ValidLog(p, log, s) && ValidLog(p, previous, s')
    requires LogExtends(p, log, previous.checkpoint)
    ensures previous.entries <= log.entries || LogClash(p, previous, log)
  {
    RevocationLeafInjective(p);
    PrefixBinding(p.hash, RevocationLeaf(p), previous.entries, log.entries);
  }

  /** A key is revoked at most once in a valid log. */
  lemma RevokedOnce(p: Primitives, log: RevocationLog, registrations: Snapshot, x: Revocation, y: Revocation)
    requires ValidLog(p, log, registrations)
    requires x in log.entries && y in log.entries && x.request.nkey == y.request.nkey
    ensures x == y
  {
    forall i, j | 0 <= i < j < |log.entries| ensures log.entries[i].request.nkey != log.entries[j].request.nkey {
      assert ValidEntry(p, log.entries, j, registrations);
      assert log.entries[..j][i] == log.entries[i];
    }
    var i :| 0 <= i < |log.entries| && log.entries[i] == x;
    var j :| 0 <= j < |log.entries| && log.entries[j] == y;
    assert i < j || j < i || i == j;
  }

  /** Appending registrations never invalidates a revocation log. */
  lemma LogStaysValid(p: Primitives, log: RevocationLog, s: Snapshot, s': Snapshot)
    requires ValidLog(p, log, s) && ValidSnapshot(p, s')
    requires s.entries <= s'.entries && s.checkpoint.signer == s'.checkpoint.signer
    ensures ValidLog(p, log, s')
  {
    forall i | 0 <= i < |log.entries| ensures ValidEntry(p, log.entries, i, s') {
      var q := log.entries[i].request;
      assert ValidEntry(p, log.entries, i, s);
      var r :| r in s.entries && r.payload.userId == q.user && r.payload.deviceId == q.device
          && r.payload.natsKey == q.nkey;
      assert r in s'.entries;
      if q.author != s.checkpoint.signer {
        var a :| a in s.entries && a.payload.natsKey == q.author && a.payload.userId == q.user;
        assert a in s'.entries;
      }
    }
  }
}
