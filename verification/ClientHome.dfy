/**
 * What a client remembers about the directory: sticky device pins, the transparency checkpoint and
 * the local revocation index (crates/epochgrid-core/src/trust.rs, revocation.rs and `audit` of
 * transparency.rs). A `commits` flag or a `budget` of commits says how far the durable writes get
 * before the process dies or the storage fails.
 */
module ClientHome {
  import opened Prelude
  import opened Wire
  import opened Transparency
  import opened RevocationLogs

  const TRUST_LIMIT: nat := 256

  datatype TrustState = Unverified | Verified | Changed

  datatype DeviceTrust = DeviceTrust(fingerprint: string, latest: string, state: TrustState)

  datatype RevokedDevice = RevokedDevice(user: string, device: string, mlsKey: Bytes, cutoff: nat)

  type DeviceName = (string, string)

  /** The rows of device_trust, transparency_state, revoked_devices and revocation_checkpoint. */
  datatype Home = Home(
    trust: map<DeviceName, DeviceTrust>,
    signer: Option<string>,
    checkpoint: Option<Checkpoint>,
    revoked: map<string, RevokedDevice>,
    revocationCheckpoint: Option<Checkpoint>)

  const EMPTY_HOME := Home(map[], None, None, map[], None)

  function NameOf(r: Registration): DeviceName {
    (r.payload.userId, r.payload.deviceId)
  }

  function HexUpper(bytes: Bytes): (s: string)
    ensures |s| == 2 * |bytes|
  {
    if bytes == [] then ""
    else [HEX_DIGITS[bytes[0] / 16], HEX_DIGITS[bytes[0] % 16]] + HexUpper(bytes[1..])
  }

  const HEX_DIGITS: string := "0123456789ABCDEF"

  /** `fingerprint`: the identity part of a registration, as 64 hexadecimal digits. */
  function Fingerprint(p: Primitives, r: Registration): Option<string> {
    if !ValidRegistration(p, r) then None
    else
      match p.keyPackage(r.payload.mlsKeyPackage)
      case None => None
      case Some(package) =>
        if package.credential != r.payload.mlsCredential then None
        else Some(HexUpper(p.hash(p.fingerprintMessage(r.payload, package.signatureKey))))
  }

  /** `observe_device`: the first fingerprint sticks, and a differing one blocks the device for good. */
  function Observe(p: Primitives, home: Home, r: Registration, commits: bool): (Home, bool) {
    match Fingerprint(p, r)
    case None => (home, false)
    case Some(seen) =>
      var name := NameOf(r);
      if name in home.trust then
        var previous := home.trust[name];
        if previous.state.Changed? && previous.fingerprint == seen then (home, false)
        else if previous.fingerprint != seen || previous.state.Changed? then
          var marked := home.(trust := home.trust[name := previous.(latest := seen, state := Changed)]);
          (if commits then marked else home, false)
        else (home, commits)
      else if |home.trust| >= TRUST_LIMIT || !commits then (home, false)
      else (home.(trust := home.trust[name := DeviceTrust(seen, seen, Unverified)]), true)
  }

  /** Observes the entries in order up to the first refusal; the last part is the budget left. */
  function ObserveAll(p: Primitives, home: Home, entries: seq<Registration>, budget: nat): (Home, bool, nat)
    decreases |entries|
  {
    if entries == [] then (home, true, budget)
    else
      var (next, ok) := Observe(p, home, entries[0], budget > 0);
      if ok && budget > 0 then ObserveAll(p, next, entries[1..], budget - 1) else (next, false, 0)
  }

  /** `pin_directory`. */
  function Pin(p: Primitives, home: Home, signer: string, commits: bool): (Home, bool) {
    var other := home.signer.Some? && home.signer != Some(signer);
    if !("U" <= signer) || !p.publicKey(signer) || other || !commits then (home, false)
    else (home.(signer := Some(signer)), true)
  }

  /** `verify_device` without the clean-up of what the operator typed. */
  function Verify(home: Home, name: DeviceName, expected: string, commits: bool): (Home, bool) {
    if name !in home.trust || home.trust[name].state.Changed? || home.trust[name].fingerprint != Typed(expected)
       || !CompleteFingerprint(Typed(expected)) || !commits then (home, false)
    else (home.(trust := home.trust[name := home.trust[name].(state := Verified)]), true)
  }

  predicate CompleteFingerprint(s: string) {
    |s| == 64 && forall i | 0 <= i < |s| :: '0' <= s[i] <= '9' || 'A' <= s[i] <= 'F'
  }

  /** What is left of the typed text: no ASCII white space, upper case. */
  function Typed(s: string): string {
    if s == "" then ""
    else if s[0] in " \t\n\r\U{0C}" then Typed(s[1..])
    else [if 'a' <= s[0] <= 'z' then s[0] - 'a' + 'A' else s[0]] + Typed(s[1..])
  }

  /** `accept_checkpoint`: pin, observe every entry, then compare with the stored checkpoint. */
  function AcceptCheckpoint(p: Primitives, home: Home, s: Snapshot, budget: nat): (Home, bool, nat) {
    if !ValidSnapshot(p, s) then (home, false, budget)
    else
      var (pinned, ok) := Pin(p, home, s.checkpoint.signer, budget > 0);
      if !ok then (pinned, false, 0)
      else
        var (observed, ok', left) := ObserveAll(p, pinned, s.entries, budget - 1);
        if ok' then StoreCheckpoint(p, observed, s, left) else (observed, false, left)
  }

  /** The last step of `accept_checkpoint`: the prefix check and the write of the new checkpoint. */
  function StoreCheckpoint(p: Primitives, home: Home, s: Snapshot, budget: nat): (Home, bool, nat) {
    if budget == 0 || (home.checkpoint.Some? && !Extends(p, s, home.checkpoint.value)) then (home, false, budget)
    else (home.(checkpoint := Some(s.checkpoint)), true, budget - 1)
  }

  function FindKey(entries: seq<Registration>, nkey: string): Option<Registration> {
    if entries == [] then None
    else if entries[0].payload.natsKey == nkey then Some(entries[0])
    else FindKey(entries[1..], nkey)
  }

  /** The row a revocation stands for: the endpoint it names and the MLS key registered for its NKey. */
  function RowOf(p: Primitives, e: Revocation, registrations: Snapshot): Option<RevokedDevice> {
    match FindKey(registrations.entries, e.request.nkey)
    case None => None
    case Some(r) =>
      match p.keyPackage(r.payload.mlsKeyPackage)
      case None => None
      case Some(package) => Some(RevokedDevice(e.request.user, e.request.device, package.signatureKey, e.chatCutoff))
  }

  /** The INSERT OR IGNORE statements, one per entry. */
  function Index(p: Primitives, revoked: map<string, RevokedDevice>, entries: seq<Revocation>,
                 registrations: Snapshot): Option<map<string, RevokedDevice>> {
    if entries == [] then Some(revoked)
    else
      var e := entries[|entries| - 1];
      match (Index(p, revoked, entries[..|entries| - 1], registrations), RowOf(p, e, registrations))
      case (Some(before), Some(row)) => Some(if e.request.nkey in before then before else before[e.request.nkey := row])
      case _ => None
  }

  /** `accept_revocations`: one transaction. */
  function AcceptRevocations(p: Primitives, home: Home, log: RevocationLog, registrations: Snapshot,
                             commits: bool): (Home, bool) {
    if !ValidLog(p, log, registrations) || !commits then (home, false)
    else if home.revocationCheckpoint.Some? && !LogExtends(p, log, home.revocationCheckpoint.value) then (home, false)
    else
      match Index(p, home.revoked, log.entries, registrations)
      case None => (home, false)
      case Some(index) => (home.(revoked := index, revocationCheckpoint := Some(log.checkpoint)), true)
  }

  /** The local half of `audit`: both logs are validated before either is accepted. */
  function Audit(p: Primitives, home: Home, s: Snapshot, log: RevocationLog, budget: nat): (Home, bool) {
    if !ValidLog(p, log, s) then (home, false)
    else
      var (next, ok, left) := AcceptCheckpoint(p, home, s, budget);
      if ok then AcceptRevocations(p, next, log, s, left > 0) else (next, false)
  }

  /** The persistent rows of one installation and the methods that write them. */
  class IdentityStore {
    const p: Primitives
    var trust: map<DeviceName, DeviceTrust>
    var signer: Option<string>
    var checkpoint: Option<Checkpoint>
    var revoked: map<string, RevokedDevice>
    var revocationCheckpoint: Option<Checkpoint>

    function Rows(): Home
      reads this
    {
      Home(trust, signer, checkpoint, revoked, revocationCheckpoint)
    }

    constructor (p: Primitives)
      ensures this.p == p && Rows() == EMPTY_HOME
    {
      this.p := p;
      trust, signer, checkpoint, revoked, revocationCheckpoint := map[], None, None, map[], None;
    }

    method ObserveDevice(r: Registration, commits: bool) returns (ok: bool)
      modifies this`trust
      ensures (Rows(), ok) == Observe(p, old(Rows()), r, commits)
    {
      var seen := Fingerprint(p, r);
      if seen.None? {
        return false;
      }
      var name := NameOf(r);
      var changed := false;
      if name in trust {
        var previous := trust[name];
        if previous.state.Changed? && previous.fingerprint == seen.value {
          changed := true;
        } else if previous.fingerprint != seen.value || previous.state.Changed? {
          if commits {
            trust := trust[name := previous.(latest := seen.value, state := Changed)];
          }
          changed := true;
        }
      } else if |trust| >= TRUST_LIMIT {
        return false;
      } else if commits {
        trust := trust[name := DeviceTrust(seen.value, seen.value, Unverified)];
      }
      return commits && !changed;
    }

    method PinDirectory(key: string, commits: bool) returns (ok: bool)
      modifies this`signer
      ensures (Rows(), ok) == Pin(p, old(Rows()), key, commits)
    {
      if !("U" <= key) || !p.publicKey(key) || (signer.Some? && signer.value != key) || !commits {
        return false;
      }
      signer := Some(key);
      return true;
    }

    method VerifyDevice(user: string, device: string, expected: string, commits: bool) returns (ok: bool)
      modifies this`trust
      ensures (Rows(), ok) == Verify(old(Rows()), (user, device), expected, commits)
    {
      var typed := Typed(expected);
      if !CompleteFingerprint(typed) || (user, device) !in trust {
        return false;
      }
      var observed := trust[(user, device)];
      if observed.state.Changed? || observed.fingerprint != typed || !commits {
        return false;
      }
      trust := trust[(user, device) := observed.(state := Verified)];
      return true;
    }

    method ObserveEntries(entries: seq<Registration>, budget: nat) returns (ok: bool, left: nat)
      modifies this`trust
      ensures (Rows(), ok, left) == ObserveAll(p, old(Rows()), entries, budget)
    {
      left := budget;
      for i := 0 to |entries|
        invariant ObserveAll(p, old(Rows()), entries, budget) == ObserveAll(p, Rows(), entries[i..], left)
      {
        assert entries[i..][0] == entries[i] && entries[i..][1..] == entries[i + 1..];
        var observed := ObserveDevice(entries[i], left > 0);
        if !observed || left == 0 {
          return false, 0;
        }
        left := left - 1;
      }
      return true, left;
    }

    /** Every write before the last one persists even when a later step refuses the snapshot. */
    method Accept(s: Snapshot, budget: nat) returns (ok: bool, left: nat)
      modifies this`trust, this`signer, this`checkpoint
      ensures (Rows(), ok, left) == AcceptCheckpoint(p, old(Rows()), s, budget)
    {
      var valid := Transparency.Validate(p, s);
      if !valid {
        return false, budget;
      }
      var pinned := PinDirectory(s.checkpoint.signer, budget > 0);
      if !pinned {
        return false, 0;
      }
      ok, left := ObserveEntries(s.entries, budget - 1);
      if ok {
        ok, left := Store(s, left);
      }
    }

    method Store(s: Snapshot, budget: nat) returns (ok: bool, left: nat)
      modifies this`checkpoint
      ensures (Rows(), ok, left) == StoreCheckpoint(p, old(Rows()), s, budget)
    {
      if budget == 0 || (checkpoint.Some? && !Extends(p, s, checkpoint.value)) {
        return false, budget;
      }
      checkpoint := Some(s.checkpoint);
      return true, budget - 1;
    }

    method AuditDirectory(s: Snapshot, log: RevocationLog, budget: nat) returns (ok: bool)
      modifies this
      ensures (Rows(), ok) == Audit(p, old(Rows()), s, log, budget)
    {
      ok := ValidateLog(p, log, s);
      if ok {
        var left;
        ok, left := Accept(s, budget);
        if ok {
          ok := AcceptRevocationLog(log, s, left > 0);
        }
      }
    }

    method AcceptRevocationLog(log: RevocationLog, registrations: Snapshot, commits: bool) returns (ok: bool)
      modifies this`revoked, this`revocationCheckpoint
      ensures (Rows(), ok) == AcceptRevocations(p, old(Rows()), log, registrations, commits)
    {
      var valid := ValidateLog(p, log, registrations);
      if !valid || !commits || (revocationCheckpoint.Some? && !LogExtends(p, log, revocationCheckpoint.value)) {
        return false;
      }
      var rows := IndexEntries(log.entries, registrations);
      if rows.None? {
        return false;
      }
      revoked, revocationCheckpoint := rows.value, Some(log.checkpoint);
      return true;
    }

    method IndexEntries(entries: seq<Revocation>, registrations: Snapshot)
      returns (index: Option<map<string, RevokedDevice>>)
      ensures index == Index(p, revoked, entries, registrations)
    {
      var rows := revoked;
      for i := 0 to |entries|
        invariant Index(p, revoked, entries[..i], registrations) == Some(rows)
      {
        var e := entries[i];
        assert entries[..i + 1][..i] == entries[..i];
        var row := RowOf(p, e, registrations);
        if row.None? {
          IndexStops(p, revoked, entries, i + 1, registrations);
          return None;
        }
        if e.request.nkey !in rows {
          rows := rows[e.request.nkey := row.value];
        }
      }
      assert entries[..|entries|] == entries;
      return Some(rows);
    }
  }

  lemma {:induction false} IndexStops(p: Primitives, revoked: map<string, RevokedDevice>, entries: seq<Revocation>,
                                      i: nat, registrations: Snapshot)
    requires i <= |entries| && Index(p, revoked, entries[..i], registrations).None?
    ensures Index(p, revoked, entries, registrations).None?
  {
    if i < |entries| {
      assert entries[..|entries| - 1][..i] == entries[..i];
      IndexStops(p, revoked, entries[..|entries| - 1], i, registrations);
    } else {
      assert entries[..i] == entries;
    }
  }
}
