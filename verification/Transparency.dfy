/** Signed snapshots of the registration log: crates/epochgrid-core/src/transparency.rs. */
module Transparency {
  import opened Prelude
  import opened Wire
  import opened Merkle

  /** A Merkle leaf is the registration as the wire carries it, so an oversized one has no root. */
  function RegistrationLeaf(p: Primitives): Registration -> Option<Bytes> {
    r => Encode(p.registrations, r)
  }

  function RegistrationRoot(p: Primitives, entries: seq<Registration>): Option<Digest> {
    Root(p.hash, RegistrationLeaf(p), entries)
  }

  /** No two entries share an endpoint, and no two share an NKey. */
  predicate DistinctIdentities(entries: seq<Registration>) {
    forall i, j | 0 <= i < j < |entries| ::
      && EndpointOf(entries[i]) != EndpointOf(entries[j])
      && entries[i].payload.natsKey != entries[j].payload.natsKey
  }

  /** The signed bytes cover everything but the signature. */
  function SnapshotMessage(p: Primitives, cp: Checkpoint): Bytes {
    p.snapshotMessage(cp.(signature := []))
  }

  /** The size, version, signer, signature and root checks of `Snapshot::validate`. */
  predicate ValidHeader(p: Primitives, s: Snapshot) {
    && |s.entries| <= LOG_LIMIT
    && Encode(p.snapshots, s).Some?
    && s.checkpoint.version == 1 && s.checkpoint.size == |s.entries|
    && "U" <= s.checkpoint.signer
    && p.publicKey(s.checkpoint.signer)
    && p.verifies(s.checkpoint.signer, SnapshotMessage(p, s.checkpoint), s.checkpoint.signature)
    && RegistrationRoot(p, s.entries) == Some(s.checkpoint.root)
  }

  /** What `Snapshot::validate` accepts. */
  predicate ValidSnapshot(p: Primitives, s: Snapshot) {
    && ValidHeader(p, s)
    && (forall i | 0 <= i < |s.entries| :: ValidRegistration(p, s.entries[i]))
    && DistinctIdentities(s.entries)
  }

  /** `Snapshot::validate`: two growing sets refuse the first repeated endpoint or key. */
  method Validate(p: Primitives, s: Snapshot) returns (valid: bool)
    ensures valid <==> ValidSnapshot(p, s)
  {
    if !ValidHeader(p, s) {
      return false;
    }
    var endpoints: set<string>, keys: set<string> := {}, {};
    for i := 0 to |s.entries|
      invariant endpoints == set j | 0 <= j < i :: EndpointOf(s.entries[j])
      invariant keys == set j | 0 <= j < i :: s.entries[j].payload.natsKey
      invariant forall j | 0 <= j < i :: ValidRegistration(p, s.entries[j])
      invariant forall j, k | 0 <= j < k < i ::
                  EndpointOf(s.entries[j]) != EndpointOf(s.entries[k])
                    && s.entries[j].payload.natsKey != s.entries[k].payload.natsKey
    {
      var entry := s.entries[i];
      if !ValidRegistration(p, entry) || EndpointOf(entry) in endpoints || entry.payload.natsKey in keys {
        return false;
      }
      endpoints, keys := endpoints + {EndpointOf(entry)}, keys + {entry.payload.natsKey};
    }
    return true;
  }

  /** `Snapshot::signed`: what is signed must also validate. */
  function Signed(p: Primitives, key: SigningKey, entries: seq<Registration>): (r: Option<Snapshot>)
    ensures r.Some? ==>
          ValidSnapshot(p, r.value) && r.value.entries == entries
          && r.value.checkpoint.signer == key.public
  {
    match RegistrationRoot(p, entries)
    case None => None
    case Some(root) =>
      var cp := Checkpoint(1, |entries|, root, key.public, []);
      var s := Snapshot(cp.(signature := key.sign(SnapshotMessage(p, cp))), entries);
      if ValidSnapshot(p, s) then Some(s) else None
  }

  /** `Snapshot::extends`: same signer, not shorter, and the old root over the old length. */
  predicate Extends(p: Primitives, s: Snapshot, previous: Checkpoint) {
    && s.checkpoint.signer == previous.signer
    && |s.entries| >= previous.size
    && RegistrationRoot(p, s.entries[..previous.size]) == Some(previous.root)
  }

  lemma RegistrationLeafInjective(p: Primitives)
    requires RoundTrips(p.registrations)
    ensures Injective(RegistrationLeaf(p))
  {
    var leaf := RegistrationLeaf(p);
    forall x: Registration, y: Registration | leaf(x).Some? && leaf(x) == leaf(y) ensures x == y {
      assert p.registrations.decode(p.registrations.encode(x)) == Some(x);
      assert p.registrations.decode(p.registrations.encode(y)) == Some(y);
    }
  }

  /** Walking down the trees of two snapshots, of which the later should repeat the earlier, ends in a collision. */
  ghost predicate SnapshotClash(p: Primitives, earlier: Snapshot, later: Snapshot) {
    PrefixClash(p.hash, RegistrationLeaf(p), earlier.entries, later.entries)
  }

  /**
   * A valid snapshot that extends the checkpoint of another valid snapshot repeats all its entries,
   * in place; and whatever repeats all entries of a valid snapshot extends it.
   */
  lemma ExtendsIsPrefix(p: Primitives, s: Snapshot, previous: Snapshot)
    requires p.Sane() && ValidSnapshot(p, s) && ValidSnapshot(p, previous)
    ensures Extends(p, s, previous.checkpoint) ==>
              s.checkpoint.signer == previous.checkpoint.signer
                && (previous.entries <= s.entries || SnapshotClash(p, previous, s))
    ensures s.checkpoint.signer == previous.checkpoint.signer && previous.entries <= s.entries ==>
              Extends(p, s, previous.checkpoint)
  {
    if Extends(p, s, previous.checkpoint) {
      RegistrationLeafInjective(p);
      PrefixBinding(p.hash, RegistrationLeaf(p), previous.entries, s.entries);
    }
    if previous.entries <= s.entries {
      assert s.entries[..|previous.entries|] == previous.entries;
    }
  }

  /** Two entries of one valid snapshot with the same endpoint, or the same key, are the same entry. */
  lemma SameIdentity(p: Primitives, s: Snapshot, x: Registration, y: Registration)
    requires ValidSnapshot(p, s) && x in s.entries && y in s.entries
    ensures EndpointOf(x) == EndpointOf(y) || x.payload.natsKey == y.payload.natsKey ==> x == y
  {
    var i :| 0 <= i < |s.entries| && s.entries[i] == x;
    var j :| 0 <= j < |s.entries| && s.entries[j] == y;
    assert i < j || j < i || i == j;
  }
}
