/**
 * The authority's registry of users, tokens, devices and groups:
 * crates/epochgrid-core/src/identity_model.rs and authorization.rs. `db` stands for the committed
 * tables, a method for a transaction; `storage` says whether everything outside the tables (the
 * audit record, the page quota, the commit itself) succeeds.
 */
module Registry {
  import opened Prelude
  import opened Wire

  datatype Token = Token(user: string, expires: int, usedKey: Option<string>)

  datatype Device = Device(user: string, device: string, registration: Registration, ready: bool, revoked: bool,
    generation: nat)

  /** `lastUpdate` is None for the empty blob that revocation stores. */
  datatype Group = Group(generation: nat, epoch: nat, coordinator: string, lastUpdate: Option<PolicyUpdate>)

  datatype Member = Member(nkey: string, leaf: nat)

  datatype PolicyUpdate = PolicyUpdate(
    version: nat,
    gid: string,
    expectedGeneration: nat,
    epoch: nat,
    signer: string,
    members: seq<Member>)

  datatype SignedPolicy = SignedPolicy(update: PolicyUpdate, signature: Bytes)

  /** An enrollment token after parsing. */
  datatype Credential = Credential(user: string, secret: string)

  /** A membership edge: group and device key. */
  type Edge = (string, string)

  datatype Tables = Tables(
    users: map<string, bool>,
    bindings: map<string, string>,
    tokens: map<Digest, Token>,
    devices: map<string, Device>,
    groups: map<string, Group>,
    members: map<Edge, nat>)

  const EMPTY_TABLES := Tables(map[], map[], map[], map[], map[], map[])

  datatype Capacity = Capacity(
    users: nat,
    devices: nat,
    devicesPerUser: nat,
    tokens: nat,
    groups: nat,
    edges: nat,
    groupsPerDevice: nat)

  /** What stays fixed while a registry runs. */
  datatype Env = Env(
    p: Primitives,
    packageValid: Registration -> bool,
    policyMessage: PolicyUpdate -> Bytes,
    digest: Credential -> Digest,
    capacity: Capacity)

  const REGISTRATION_BYTES: nat := 1536
  const POLICY_MEMBERS: nat := 128

  // ---- Reading ----

  predicate Enabled(t: Tables, user: string) {
    user in t.users && t.users[user]
  }

  /** The stored registration is the signed one of this row. */
  predicate BindingMatches(env: Env, d: Device, key: string) {
    && ValidRegistration(env.p, d.registration)
    && d.registration.payload.natsKey == key
    && d.registration.payload.userId == d.user
    && d.registration.payload.deviceId == d.device
    && d.generation > 0
  }

  /** `authorize` succeeds. */
  predicate Authorized(env: Env, t: Tables, key: string) {
    && key in t.devices
    && t.devices[key].ready && !t.devices[key].revoked
    && Enabled(t, t.devices[key].user)
    && BindingMatches(env, t.devices[key], key)
  }

  function DevicesOf(t: Tables, user: string): set<string> {
    set k | k in t.devices && t.devices[k].user == user && !t.devices[k].revoked
  }

  function EdgesOf(t: Tables, key: string): set<Edge> {
    set e | e in t.members && e.1 == key
  }

  /** The counts `check_registry` compares with the declared capacity. */
  predicate WithinLimits(env: Env, t: Tables) {
    && |t.users.Keys| <= env.capacity.users
    && |t.devices.Keys| <= env.capacity.devices
    && |t.tokens.Keys| <= env.capacity.tokens
    && |t.groups.Keys| <= env.capacity.groups
    && |t.members.Keys| <= env.capacity.edges
    && (forall u {:trigger DevicesOf(t, u)} | u in t.users :: |DevicesOf(t, u)| <= env.capacity.devicesPerUser)
    && (forall k {:trigger EdgesOf(t, k)} | k in t.devices :: |EdgesOf(t, k)| <= env.capacity.groupsPerDevice)
    && (forall k | k in t.devices :: |env.p.registrations.encode(t.devices[k].registration)| <= REGISTRATION_BYTES)
  }

  // ---- Enrollment ----

  function WithToken(t: Tables, digest: Digest, token: Token): Tables {
    t.(tokens := t.tokens[digest := token])
  }

  /** The user a new token is for, created when the handle is new. */
  function Invited(t: Tables, handle: string, newUser: string): Tables {
    if handle in t.bindings then t
    else t.(users := t.users[newUser := true], bindings := t.bindings[handle := newUser])
  }

  /** `invite`; `newUser` and `secret` are the random user id and token secret. */
  function Invite(env: Env, t: Tables, handle: string, ttl: int, newUser: string, secret: string, now: int,
                  storage: bool): (Tables, bool) {
    if !ValidId(handle) || !(1 <= ttl <= 3600) || (handle !in t.bindings && newUser in t.users) then (t, false)
    else
      var u := Invited(t, handle, newUser);
      var user := u.bindings[handle];
      var digest := env.digest(Credential(user, secret));
      var next := WithToken(u, digest, Token(user, now + ttl, None));
      if !Enabled(u, user) || digest in t.tokens || !storage || !WithinLimits(env, next) then (t, false)
      else (next, true)
  }

  /** An unused, unexpired token of an enabled user with a local binding. */
  predicate Authenticates(t: Tables, credential: Credential, digest: Digest, now: int) {
    && digest in t.tokens
    && t.tokens[digest].user == credential.user && t.tokens[digest].expires > now && t.tokens[digest].usedKey.None?
    && credential.user in t.bindings.Values
    && Enabled(t, credential.user)
  }

  predicate NameTaken(t: Tables, user: string, device: string) {
    exists k | k in t.devices :: t.devices[k].user == user && t.devices[k].device == device
  }

  function Enrolled(t: Tables, digest: Digest, r: Registration): Tables
    requires digest in t.tokens
  {
    WithToken(t, digest, t.tokens[digest].(usedKey := Some(r.payload.natsKey)))
      .(devices := t.devices[r.payload.natsKey := Device(r.payload.userId, r.payload.deviceId, r, false, false, 1)])
  }

  /** `enroll`. */
  function Enroll(env: Env, t: Tables, token: Option<Credential>, r: Registration, now: int,
                  storage: bool): (Tables, bool) {
    if !ValidRegistration(env.p, r) || !env.packageValid(r) || token.None? || r.payload.userId != token.value.user
       || Encode(env.p.registrations, r).None? || !storage then (t, false)
    else
      var key, digest := r.payload.natsKey, env.digest(token.value);
      if digest in t.tokens && t.tokens[digest].usedKey.Some? then
        // A retry after a lost response: nothing is written.
        (t, t.tokens[digest].usedKey == Some(key) && key in t.devices && !t.devices[key].revoked
            && Enabled(t, t.devices[key].user) && t.devices[key].registration == r)
      else if !Authenticates(t, token.value, digest, now) then (t, false)
      else if key in t.devices || NameTaken(t, r.payload.userId, r.payload.deviceId) then (t, false)
      else
        var next := Enrolled(t, digest, r);
        if WithinLimits(env, next) then (next, true) else (t, false)
  }

  /** `activate`. */
  function Activate(t: Tables, key: string, storage: bool): (Tables, bool) {
    if key !in t.devices || t.devices[key].revoked || !storage then (t, false)
    else (t.(devices := t.devices[key := t.devices[key].(ready := true)]), true)
  }

  // ---- Revocation ----

  /** Does `other` share a group with `key`? */
  predicate Shares(t: Tables, key: string, other: string) {
    exists e | e in t.members :: e.1 == key && (e.0, other) in t.members
  }

  /** The remaining member with the least leaf. */
  ghost predicate IsSuccessor(members: map<Edge, nat>, gid: string, nkey: string) {
    && (gid, nkey) in members
    && forall e | e in members && e.0 == gid :: members[(gid, nkey)] <= members[e]
  }

  /** `COALESCE((SELECT nkey ... ORDER BY leaf LIMIT 1), '')`. */
  ghost function Successor(members: map<Edge, nat>, gid: string): string {
    if exists k :: IsSuccessor(members, gid, k) then
      var k :| IsSuccessor(members, gid, k);
      k
    else ""
  }

  function WithoutDevice(members: map<Edge, nat>, key: string): map<Edge, nat> {
    map e | e in members && e.1 != key :: members[e]
  }

  /** The tables after a revocation, row by row. */
  ghost function Revoked(t: Tables, key: string): Tables {
    var rest := WithoutDevice(t.members, key);
    t.(devices := map k | k in t.devices ::
         var changes := (if Shares(t, key, k) then 1 else 0) + (if k == key then 1 else 0);
         t.devices[k].(revoked := t.devices[k].revoked || k == key, generation := t.devices[k].generation + changes),
       groups := map g | g in t.groups ::
         Group(t.groups[g].generation + (if (g, key) in t.members then 1 else 0),
               t.groups[g].epoch,
               if t.groups[g].coordinator == key then Successor(rest, g) else t.groups[g].coordinator,
               if (g, key) in t.members then None else t.groups[g].lastUpdate),
       members := rest)
  }

  /** `revoke`: unknown and revoked keys are left alone. */
  ghost function Revoke(t: Tables, key: string, storage: bool): (Tables, bool) {
    if key !in t.devices || t.devices[key].revoked then (t, storage)
    else if storage then (Revoked(t, key), true)
    else (t, false)
  }

  // ---- Group policy ----

  predicate HexLower(c: char) {
    '0' <= c <= '9' || 'a' <= c <= 'f'
  }

  predicate ValidGid(gid: string) {
    |gid| == 32 && forall i | 0 <= i < |gid| :: HexLower(gid[i])
  }

  predicate WellFormedPolicy(env: Env, s: SignedPolicy) {
    var u := s.update;
    && u.version == 1
    && ValidGid(u.gid)
    && 0 < |u.members| <= POLICY_MEMBERS
    && u.epoch <= I64_MAX && u.expectedGeneration < I64_MAX
    && env.p.publicKey(u.signer)
    && env.p.verifies(u.signer, env.policyMessage(u), s.signature)
  }

  /** Distinct devices with strictly increasing leaves. */
  predicate Ordered(members: seq<Member>) {
    forall i, j | 0 <= i < j < |members| :: members[i].nkey != members[j].nkey && members[i].leaf < members[j].leaf
  }

  predicate MembersAllowed(env: Env, t: Tables, members: seq<Member>) {
    && Ordered(members)
    && forall i | 0 <= i < |members| :: Authorized(env, t, members[i].nkey)
  }

  predicate InPolicy(members: seq<Member>, nkey: string) {
    exists i | 0 <= i < |members| :: members[i].nkey == nkey
  }

  predicate IsRetry(t: Tables, u: PolicyUpdate) {
    u.gid in t.groups && t.groups[u.gid].generation == u.expectedGeneration + 1 && t.groups[u.gid].lastUpdate == Some(u)
  }

  /** A change by the coordinator against the current generation, or a new group of its creator alone. */
  predicate IsCurrent(t: Tables, u: PolicyUpdate)
    requires |u.members| > 0
  {
    if u.gid in t.groups then
      var g := t.groups[u.gid];
      g.generation == u.expectedGeneration && g.coordinator == u.signer && u.epoch > g.epoch
    else
      u.expectedGeneration == 0 && u.epoch == 0 && u.members == [Member(u.signer, 0)]
  }

  function WithoutGroup(members: map<Edge, nat>, gid: string): map<Edge, nat> {
    map e | e in members && e.0 != gid :: members[e]
  }

  function Placed(members: map<Edge, nat>, gid: string, list: seq<Member>): map<Edge, nat> {
    if list == [] then members
    else Placed(members, gid, list[..|list| - 1])[(gid, list[|list| - 1].nkey) := list[|list| - 1].leaf]
  }

  /** The tables after a policy change, row by row. */
  function Applied(t: Tables, u: PolicyUpdate): Tables {
    t.(devices := map k | k in t.devices ::
         t.devices[k].(generation := t.devices[k].generation
           + (if (u.gid, k) in t.members then 1 else 0) + (if InPolicy(u.members, k) then 1 else 0)),
       groups := t.groups[u.gid := Group(u.expectedGeneration + 1, u.epoch, u.signer, Some(u))],
       members := Placed(WithoutGroup(t.members, u.gid), u.gid, u.members))
  }

  /** `apply_policy`: the new or retried generation, or None; `rate` is the verdict of the signer's rate limit. */
  ghost function ApplyPolicy(env: Env, t: Tables, s: SignedPolicy, rate: bool, storage: bool): (Tables, Option<nat>) {
    var u := s.update;
    var allowed := Authorized(env, t, u.signer) && rate && MembersAllowed(env, t, u.members);
    if !WellFormedPolicy(env, s) || !allowed || !storage then (t, None)
    else if IsRetry(t, u) then (t, Some(u.expectedGeneration + 1))
    else if !IsCurrent(t, u) || !InPolicy(u.members, u.signer) || !WithinLimits(env, Applied(t, u)) then (t, None)
    else (Applied(t, u), Some(u.expectedGeneration + 1))
  }
}
