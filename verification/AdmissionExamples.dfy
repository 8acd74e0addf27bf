/**
 * The admission runs are not idle: one device from its invitation over its enrollment to its accepted
 * revocation, in any surroundings that let it through, and surroundings that do.
 */
module AdmissionExamples {
  import opened Prelude
  import opened Wire
  import opened Registry
  import opened Admission

  /** The registration passes every check, and there is room for one user, one token and one device. */
  ghost predicate LetsThrough(env: Env, r: Registration) {
    && ValidRegistration(env.p, r) && env.packageValid(r)
    && |env.p.registrations.encode(r)| <= REGISTRATION_BYTES
    && env.capacity.users >= 1 && env.capacity.tokens >= 1
    && env.capacity.devices >= 1 && env.capacity.devicesPerUser >= 1
  }

  function InvitedTables(env: Env, handle: string, secret: string, r: Registration): Tables {
    var user := r.payload.userId;
    var digest := env.digest(Credential(user, secret));
    EMPTY_TABLES.(
      users := map[user := true],
      bindings := map[handle := user],
      tokens := map[digest := Token(user, 60, None)])
  }

  /** The tables once the device is enrolled, and then ready, and then revoked. */
  function DeviceTables(env: Env, handle: string, secret: string, r: Registration, ready: bool, revoked: bool): Tables {
    var p := r.payload;
    var digest := env.digest(Credential(p.userId, secret));
    var generation := if revoked then 2 else 1;
    InvitedTables(env, handle, secret, r).(
      tokens := map[digest := Token(p.userId, 60, Some(p.natsKey))],
      devices := map[p.natsKey := Device(p.userId, p.deviceId, r, ready, revoked, generation)])
  }

  lemma InvitationWorks(env: Env, handle: string, secret: string, r: Registration)
    requires LetsThrough(env, r) && ValidId(handle)
    ensures Invite(env, EMPTY_TABLES, handle, 60, r.payload.userId, secret, 0, true)
            == (InvitedTables(env, handle, secret, r), true)
  {
    hide ValidRegistration;
    var t := InvitedTables(env, handle, secret, r);
    assert t.users.Keys == {r.payload.userId} && |t.tokens.Keys| == 1;
    assert DevicesOf(t, r.payload.userId) == {};
    assert EMPTY_TABLES.users[r.payload.userId := true] == t.users;
    assert EMPTY_TABLES.bindings[handle := r.payload.userId] == t.bindings;
  }

  lemma EnrollmentWorks(env: Env, handle: string, secret: string, r: Registration)
    requires LetsThrough(env, r)
    ensures Enroll(env, InvitedTables(env, handle, secret, r), Some(Credential(r.payload.userId, secret)), r, 1, true)
            == (DeviceTables(env, handle, secret, r, false, false), true)
  {
    var before, after := InvitedTables(env, handle, secret, r), DeviceTables(env, handle, secret, r, false, false);
    var credential, user := Credential(r.payload.userId, secret), r.payload.userId;
    var digest := env.digest(credential);
    hide ValidRegistration;
    assert handle in before.bindings && before.bindings[handle] == user && user in before.bindings.Values;
    assert Authenticates(before, credential, digest, 1);
    assert Enrolled(before, digest, r) == after;
    assert after.devices.Keys == {r.payload.natsKey} && after.users.Keys == {user} && after.tokens.Keys == {digest};
    assert DevicesOf(after, user) == {r.payload.natsKey};
    assert EdgesOf(after, r.payload.natsKey) == {};
    assert WithinLimits(env, after);
  }

  /** The tables after the revocation of a device without groups. */
  lemma RevocationWorks(env: Env, handle: string, secret: string, r: Registration)
    ensures Revoke(DeviceTables(env, handle, secret, r, true, false), r.payload.natsKey, true)
            == (DeviceTables(env, handle, secret, r, true, true), true)
  {
    var before := DeviceTables(env, handle, secret, r, true, false);
    var after := DeviceTables(env, handle, secret, r, true, true);
    var t := Revoked(before, r.payload.natsKey);
    assert t.devices == after.devices && t.groups == after.groups && t.members == after.members;
  }

  lemma EnrollmentIsServed(env: Env, handle: string, secret: string, r: Registration)
    requires LetsThrough(env, r)
    ensures var before := State(InvitedTables(env, handle, secret, r), [], [], false);
            Serve(env, before, EnrollDevice(Some(Credential(r.payload.userId, secret)), r, 1), 4, false)
            == (State(DeviceTables(env, handle, secret, r, true, false), [r], [], true), true)
  {
    EnrollmentWorks(env, handle, secret, r);
    hide ValidRegistration, Enroll;
    var enrolled := DeviceTables(env, handle, secret, r, false, false);
    var ready := DeviceTables(env, handle, secret, r, true, false);
    assert Activate(enrolled, r.payload.natsKey, true).0.devices == ready.devices;
    assert [] + [r] == [r];
  }

  lemma RevocationIsServed(env: Env, handle: string, secret: string, r: Registration)
    ensures var before := State(DeviceTables(env, handle, secret, r, true, false), [r], [], true);
            Serve(env, before, RevokeDevice(r.payload.natsKey, true), 3, false)
            == (State(DeviceTables(env, handle, secret, r, true, true), [r], [r.payload.natsKey], true), true)
  {
    RevocationWorks(env, handle, secret, r);
    hide Revoke, InvitedTables, DeviceTables;
    var key := r.payload.natsKey;
    var t := DeviceTables(env, handle, secret, r, true, false);
    var t' := DeviceTables(env, handle, secret, r, true, true);
    var logged := State(t, [r], [key], false);
    assert [] + [key] == [key] && [key][1..] == [];
    assert RevokeEach(logged, [key], 2, false) == RevokeEach(logged.(t := t'), [], 1, false);
    assert [r][0].payload.natsKey == key;
  }

  function Lifecycle(handle: string, secret: string, r: Registration): seq<Step> {
    [Invitation(handle, 60, r.payload.userId, secret, 0, true),
     Handle(EnrollDevice(Some(Credential(r.payload.userId, secret)), r, 1), 4, false, 0, false),
     Handle(RevokeDevice(r.payload.natsKey, true), 3, false, 0, false)]
  }

  /**
   * An invited device is enrolled, published and ready with the gate open, its revocation is accepted, and
   * the gate is open again with the device revoked in both the registry and the log.
   */
  lemma LifecycleRuns(env: Env, handle: string, secret: string, r: Registration)
    requires LetsThrough(env, r) && ValidId(handle)
    ensures var steps, key := Lifecycle(handle, secret, r), r.payload.natsKey;
            var admitted, end := Run(env, START, steps[..2]), Run(env, START, steps);
            && admitted.open && admitted.log == [r] && key in admitted.t.devices
            && admitted.t.devices[key].ready && Authorized(env, admitted.t, key)
            && Serve(env, admitted, RevokeDevice(key, true), 3, false).1
            && end.open && end.revocations == [key] && key in end.t.devices && end.t.devices[key].revoked
  {
    InvitationWorks(env, handle, secret, r);
    EnrollmentIsServed(env, handle, secret, r);
    RevocationIsServed(env, handle, secret, r);
    hide ValidRegistration, Serve, Invite, TryRepair;
    var steps := Lifecycle(handle, secret, r);
    var invited := State(InvitedTables(env, handle, secret, r), [], [], false);
    var admitted := State(DeviceTables(env, handle, secret, r, true, false), [r], [], true);
    var end := State(DeviceTables(env, handle, secret, r, true, true), [r], [r.payload.natsKey], true);
    assert Next(env, START, steps[0]) == invited;
    assert Next(env, invited, steps[1]) == admitted;
    assert Next(env, admitted, steps[2]) == end;
    RunThree(env, START, steps[0], steps[1], steps[2]);
    assert steps[..2] == [steps[0], steps[1]] && steps == [steps[0], steps[1], steps[2]];
    assert Enabled(admitted.t, r.payload.userId);
  }

  lemma RunThree(env: Env, s: State, a: Step, b: Step, c: Step)
    ensures Run(env, s, [a, b]) == Next(env, Next(env, s, a), b)
    ensures Run(env, s, [a, b, c]) == Next(env, Next(env, Next(env, s, a), b), c)
  {
    hide Next;
    var next := Next(env, s, a);
    assert [a, b][1..] == [b] && [b][1..] == [];
    assert [a, b, c][1..] == [b, c] && [b, c][1..] == [c] && [c][1..] == [];
    assert Run(env, next, [b]) == Run(env, Next(env, next, b), []);
    assert Run(env, next, [b, c]) == Run(env, Next(env, next, b), [c]);
    assert Run(env, Next(env, next, b), [c]) == Run(env, Next(env, Next(env, next, b), c), []);
  }

  /** Primitives that accept everything, and room for one of each. */
  function Permissive(): Env {
    var p := Primitives(
      (_: Bytes) => seq(32, _ => 0), (_: string) => true, (_: string, _: Bytes, _: Bytes) => true,
      (_: Bytes) => None, (_: Payload) => [], (_: Checkpoint) => [], (_: Checkpoint) => [], (_: RevokeRequest) => [],
      (_: Payload, _: Bytes) => [],
      Codec((_: Registration) => [], (_: Bytes) => None), Codec((_: Revocation) => [], (_: Bytes) => None),
      Codec((_: Snapshot) => [], (_: Bytes) => None), Codec((_: RevocationLog) => [], (_: Bytes) => None));
    Env(p, (_: Registration) => true, (_: PolicyUpdate) => [], (_: Credential) => seq(32, _ => 0),
        Capacity(1, 1, 1, 1, 1, 1, 1))
  }

  lemma LifecycleExists()
    ensures var r := Registration(Payload(1, "alice", "laptop", "UALICE", [], [], 1, 1), []);
            LetsThrough(Permissive(), r) && ValidId("alice")
  {
    assert "alice"[0] == 'a';
  }
}
