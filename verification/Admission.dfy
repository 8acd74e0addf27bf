/**
 * The authority's request loop and its admission gate: crates/epochgrid-service/src/dynamic.rs, over
 * the registry and the two logs. There is one authority and every key-value operation is atomic. A
 * script of effects may be cut off anywhere: `budget` effects happen, and `lost` says whether the
 * effect that is then reported as failed (or interrupted by a crash) took place all the same.
 */
module Admission {
  import opened Prelude
  import opened Wire
  import opened Registry

  /** `revocations` are the keys of the revocation log in log order; `open` is the gate. */
  datatype State = State(t: Tables, log: seq<Registration>, revocations: seq<string>, open: bool)

  /** A state and, unless the script has failed, the effects still to come. */
  datatype Progress = Going(s: State, budget: nat) | Failed(s: State)

  /**
   * `permitted` stands for the signature and author checks of a revocation request. An oversized, rate-limited
   * or undecodable message is `Refused`; a mutating body on a subject that is not its own is `Misaddressed`.
   */
  datatype Request =
    | EnrollDevice(token: Option<Credential>, r: Registration, now: int)
    | RegisterDevice(r: Registration)
    | RevokeDevice(key: string, permitted: bool)
    | ChangePolicy(policy: SignedPolicy, rate: bool)
    | Misaddressed
    | ReadOnly
    | Refused

  // ---- Effects ----

  /** `for key in revocations.keys() { registry.revoke(key)? }`. */
  ghost function RevokeEach(s: State, keys: seq<string>, budget: nat, lost: bool): Progress
    decreases |keys|
  {
    if keys == [] then Going(s, budget)
    else
      var next := s.(t := Revoke(s.t, keys[0], budget > 0 || lost).0);
      if budget == 0 then Failed(next) else RevokeEach(next, keys[1..], budget - 1, lost)
  }

  /** The enrollment a registration is checked against; a historical one includes revoked devices. */
  predicate EnrolledAs(t: Tables, r: Registration, historical: bool) {
    && r.payload.natsKey in t.devices
    && var d := t.devices[r.payload.natsKey];
       d.user == r.payload.userId && d.device == r.payload.deviceId && (historical || !d.revoked)
  }

  predicate SameEndpoint(a: Registration, b: Registration) {
    a.payload.userId == b.payload.userId && a.payload.deviceId == b.payload.deviceId
  }

  predicate Logged(log: seq<Registration>, r: Registration) {
    exists i | 0 <= i < |log| :: SameEndpoint(log[i], r)
  }

  predicate Conflicts(log: seq<Registration>, r: Registration) {
    exists i | 0 <= i < |log| :: SameEndpoint(log[i], r) && log[i] != r
  }

  /** `publish_registration`: at most one entry is appended for an endpoint. */
  function Publish(env: Env, s: State, r: Registration, historical: bool, budget: nat, lost: bool): Progress {
    var valid := ValidRegistration(env.p, r) && env.packageValid(r) && EnrolledAs(s.t, r, historical);
    if !valid || Conflicts(s.log, r) then Failed(s)
    else if Logged(s.log, r) then Going(s, budget)
    else
      var next := if budget > 0 || lost then s.(log := s.log + [r]) else s;
      if budget == 0 then Failed(next) else Going(next, budget - 1)
  }

  function Ready(s: State, key: string, budget: nat, lost: bool): Progress {
    var (t, ok) := Activate(s.t, key, budget > 0 || lost);
    if !ok || budget == 0 then Failed(s.(t := t)) else Going(s.(t := t), budget - 1)
  }

  /** Publish, then activate. */
  function PublishAndReady(env: Env, s: State, r: Registration, historical: bool, budget: nat, lost: bool): Progress {
    match Publish(env, s, r, historical, budget, lost)
    case Failed(f) => Failed(f)
    case Going(next, left) => Ready(next, r.payload.natsKey, left, lost)
  }

  function Active(t: Tables): set<string> {
    set k | k in t.devices && !t.devices[k].revoked
  }

  /** The keys of a set in some order. */
  ghost function Listing(keys: set<string>): seq<string> {
    if keys == {} then []
    else
      var k :| k in keys;
      [k] + Listing(keys - {k})
  }

  function PublishEach(env: Env, s: State, keys: seq<string>, budget: nat, lost: bool): Progress
    decreases |keys|
  {
    if keys == [] then Going(s, budget)
    else if keys[0] !in s.t.devices then Failed(s)
    else
      match PublishAndReady(env, s, s.t.devices[keys[0]].registration, true, budget, lost)
      case Failed(f) => Failed(f)
      case Going(next, left) => PublishEach(env, next, keys[1..], left, lost)
  }

  /** `repair_state`; its last effect reconciles the consumers, outside this model. */
  ghost function Repair(env: Env, s: State, budget: nat, lost: bool): Progress {
    match RevokeEach(s, s.revocations, budget, lost)
    case Failed(f) => Failed(f)
    case Going(next, left) => PublishEach(env, next, Listing(Active(next.t)), left, lost)
  }

  // ---- Requests ----

  /** `revocation::append` and the revocations that follow. */
  ghost function Append(s: State, key: string, permitted: bool, budget: nat, lost: bool): Progress {
    if !permitted || !(exists i | 0 <= i < |s.log| :: s.log[i].payload.natsKey == key) then Failed(s)
    else if key in s.revocations then RevokeEach(s, s.revocations, budget, lost)
    else
      var next := if budget > 0 || lost then s.(revocations := s.revocations + [key]) else s;
      if budget == 0 then Failed(next) else RevokeEach(next, next.revocations, budget - 1, lost)
  }

  ghost function Act(env: Env, s: State, q: Request, budget: nat, lost: bool): Progress {
    match q
    case EnrollDevice(token, r, now) =>
      var (t, ok) := Enroll(env, s.t, token, r, now, budget > 0 || lost);
      if !ok || budget == 0 then Failed(s.(t := t))
      else PublishAndReady(env, s.(t := t), r, false, budget - 1, lost)
    case RegisterDevice(r) =>
      if Authorized(env, s.t, r.payload.natsKey) then Publish(env, s, r, false, budget, lost) else Failed(s)
    case RevokeDevice(key, permitted) => Append(s, key, permitted, budget, lost)
    case ChangePolicy(policy, rate) =>
      var (t, generation) := ApplyPolicy(env, s.t, policy, rate, budget > 0 || lost);
      if generation.None? || budget == 0 then Failed(s.(t := t)) else Going(s.(t := t), budget - 1)
    case Misaddressed => Going(s, budget)
    case ReadOnly => Going(s, budget)
    case Refused => Failed(s)
  }

  predicate Mutates(q: Request) {
    !q.ReadOnly? && !q.Refused?
  }

  /**
   * The handler of one request, and whether its answer is not a rejection: mutating ones close the gate
   * first and open it only when all is done, even when that was nothing.
   */
  ghost function Serve(env: Env, s: State, q: Request, budget: nat, lost: bool): (State, bool) {
    if q.Refused? then (s, false)
    else
      var start := if Mutates(q) then s.(open := false) else s;
      match RevokeEach(start, start.revocations, budget, lost)
      case Failed(f) => (f, false)
      case Going(next, left) =>
        match Act(env, next, q, left, lost)
        case Failed(f) => (f, false)
        case Going(done, rest) =>
          if !Mutates(q) then (done, true)
          else if rest == 0 then (done, false)
          else (done.(open := true), !q.Misaddressed?)
  }

  /** A repair attempt opens the gate when it completes. */
  ghost function TryRepair(env: Env, s: State, budget: nat, lost: bool): State {
    match Repair(env, s, budget, lost)
    case Failed(f) => f
    case Going(next, left) => if left > 0 then next.(open := true) else next
  }

  /** Invitations come from a command that opens the same registry beside the service. */
  datatype Step =
    | Invitation(handle: string, ttl: int, newUser: string, secret: string, now: int, storage: bool)
    | Handle(q: Request, budget: nat, lost: bool, repairBudget: nat, repairLost: bool)
    | Tick(budget: nat, lost: bool)
    | Crash(q: Request, budget: nat, lost: bool)

  /** A crash forgets the gate, so the service starts closed; starting up is a repair like any other. */
  ghost function Next(env: Env, s: State, step: Step): State {
    match step
    case Invitation(handle, ttl, newUser, secret, now, storage) =>
      s.(t := Invite(env, s.t, handle, ttl, newUser, secret, now, storage).0)
    case Handle(q, budget, lost, repairBudget, repairLost) =>
      var next := Serve(env, s, q, budget, lost).0;
      if next.open then next else TryRepair(env, next, repairBudget, repairLost)
    case Tick(budget, lost) => if s.open then s else TryRepair(env, s, budget, lost)
    case Crash(q, budget, lost) => Serve(env, s, q, budget, lost).0.(open := false)
  }

  ghost function Run(env: Env, s: State, steps: seq<Step>): State
    decreases |steps|
  {
    if steps == [] then s else Run(env, Next(env, s, steps[0]), steps[1..])
  }

  const START := State(EMPTY_TABLES, [], [], false)

  // ---- The order of effects ----

  /** This step makes the device ready. */
  predicate BecomesReady(t: Tables, t': Tables, k: string) {
    k in t'.devices && t'.devices[k].ready && !(k in t.devices && t.devices[k].ready)
  }

  /** Wherever the script is cut off: a device becomes ready only with its registration already in the log. */
  lemma PublishedFirst(env: Env, s: State, r: Registration, historical: bool, budget: nat, lost: bool)
    ensures var after := PublishAndReady(env, s, r, historical, budget, lost).s;
            && (forall k | BecomesReady(s.t, after.t, k) :: k == r.payload.natsKey && r in after.log)
            && (after.log == s.log || after.log == s.log + [r])
  {
    hide ValidRegistration, EnrolledAs;
    if Logged(s.log, r) && !Conflicts(s.log, r) {
      var i :| 0 <= i < |s.log| && SameEndpoint(s.log[i], r);
      assert s.log[i] == r;
    }
  }

  lemma {:induction false} RevokeEachKeepsGate(s: State, keys: seq<string>, budget: nat, lost: bool)
    ensures RevokeEach(s, keys, budget, lost).s.open == s.open
    decreases |keys|
  {
    if keys != [] && budget > 0 {
      RevokeEachKeepsGate(s.(t := Revoke(s.t, keys[0], true).0), keys[1..], budget - 1, lost);
    }
  }

  lemma AppendKeepsGate(s: State, key: string, permitted: bool, budget: nat, lost: bool)
    ensures Append(s, key, permitted, budget, lost).s.open == s.open
  {
    hide RevokeEach;
    var next := s.(revocations := s.revocations + [key]);
    RevokeEachKeepsGate(s, s.revocations, budget, lost);
    if budget > 0 {
      RevokeEachKeepsGate(next, next.revocations, budget - 1, lost);
    }
  }

  lemma ActKeepsGate(env: Env, s: State, q: Request, budget: nat, lost: bool)
    ensures Act(env, s, q, budget, lost).s.open == s.open
  {
    hide Append, Enroll, ApplyPolicy, Activate, Authorized, ValidRegistration, EnrolledAs;
    if q.RevokeDevice? {
      AppendKeepsGate(s, q.key, q.permitted, budget, lost);
    }
  }

  lemma {:induction false} RevokeEachCosts(s: State, keys: seq<string>, budget: nat, lost: bool)
    ensures var p := RevokeEach(s, keys, budget, lost);
            (p.Going? <==> |keys| <= budget) && (p.Going? ==> p.budget == budget - |keys|)
    decreases |keys|
  {
    if keys != [] && budget > 0 {
      RevokeEachCosts(s.(t := Revoke(s.t, keys[0], true).0), keys[1..], budget - 1, lost);
    }
  }

  /**
   * A mutating request that is cut off or rejected by its handler, at whatever effect, leaves the gate
   * closed, and one that is accepted leaves it open. A misaddressed one is rejected with the gate open,
   * once the logged revocations and one more effect went through. Others do not touch the gate.
   */
  lemma GateTellsSuccess(env: Env, s: State, q: Request, budget: nat, lost: bool)
    ensures var (after, ok) := Serve(env, s, q, budget, lost);
            && (!Mutates(q) ==> after.open == s.open)
            && (Mutates(q) && !q.Misaddressed? ==> after.open == ok)
            && (q.Misaddressed? ==> !ok && after.open == (|s.revocations| < budget))
  {
    var start := if Mutates(q) then s.(open := false) else s;
    RevokeEachKeepsGate(start, start.revocations, budget, lost);
    RevokeEachCosts(start, start.revocations, budget, lost);
    var p := RevokeEach(start, start.revocations, budget, lost);
    if p.Going? {
      ActKeepsGate(env, p.s, q, p.budget, lost);
    }
  }

  // ---- What every effect keeps ----

  /** A device's row is that of its registration, and what is ready has been published. */
  ghost predicate DeviceFine(s: State, k: string)
    requires k in s.t.devices
  {
    var d := s.t.devices[k];
    && d.registration.payload.natsKey == k && d.registration.payload.userId == d.user
       && d.registration.payload.deviceId == d.device
    && (d.ready ==> d.registration in s.log)
    && (d.revoked ==> k in s.revocations)
  }

  ghost predicate DevicesFine(s: State) {
    forall k {:trigger DeviceFine(s, k)} | k in s.t.devices :: DeviceFine(s, k)
  }

  ghost predicate EntryFine(s: State, r: Registration) {
    r.payload.natsKey in s.t.devices && s.t.devices[r.payload.natsKey].registration == r
  }

  /** The log holds nothing but registrations of enrolled devices, and only registered keys are revoked. */
  ghost predicate LogsFine(s: State) {
    && (forall r {:trigger EntryFine(s, r)} | r in s.log :: EntryFine(s, r))
    && (forall k | k in s.revocations :: k in s.t.devices)
  }

  /** The registry has caught up with the revocation log. */
  ghost predicate CaughtUp(s: State) {
    forall k | k in s.revocations && k in s.t.devices :: s.t.devices[k].revoked
  }

  ghost predicate Fine(s: State) {
    DevicesFine(s) && LogsFine(s)
  }

  ghost predicate Inv(s: State) {
    Fine(s) && (s.open ==> CaughtUp(s))
  }

  /** Rows may only be revoked or renumbered. */
  ghost predicate RowStays(t: Tables, t': Tables, k: string)
    requires k in t.devices
  {
    && k in t'.devices
    && var d, d' := t.devices[k], t'.devices[k];
       && d'.user == d.user && d'.device == d.device && d'.registration == d.registration
       && (d.ready ==> d'.ready) && (d.revoked ==> d'.revoked)
  }

  /** Logs only grow and rows only move forward. */
  ghost predicate Forward(s: State, s': State) {
    && s.log <= s'.log && s.revocations <= s'.revocations
    && (forall k {:trigger RowStays(s.t, s'.t, k)} | k in s.t.devices :: RowStays(s.t, s'.t, k))
  }

  lemma ForwardTransitive(a: State, b: State, c: State)
    requires Forward(a, b) && Forward(b, c)
    ensures Forward(a, c)
  {
    forall k | k in a.t.devices ensures RowStays(a.t, c.t, k) {
      assert RowStays(a.t, b.t, k) && RowStays(b.t, c.t, k);
    }
  }

  lemma ForwardReflexive(s: State)
    ensures Forward(s, s)
  {
    forall k | k in s.t.devices ensures RowStays(s.t, s.t, k) {}
  }

  /** The rows of two tables differ at most in generations and in who is revoked. */
  ghost predicate OnlyRevokes(t: Tables, t': Tables, key: string) {
    && t'.devices.Keys == t.devices.Keys
    && forall k {:trigger t'.devices[k]} | k in t.devices ::
         t'.devices[k].(generation := 0) == t.devices[k].(generation := 0, revoked := t.devices[k].revoked || k == key)
  }

  lemma RevokeRows(t: Tables, key: string)
    ensures OnlyRevokes(t, Revoke(t, key, true).0, key)
  {}

  lemma RevokeOneFine(s: State, key: string, storage: bool)
    requires Fine(s) && key in s.revocations
    ensures var next := s.(t := Revoke(s.t, key, storage).0);
            && Fine(next) && Forward(s, next)
            && (storage ==> key in next.t.devices && next.t.devices[key].revoked)
  {
    var next := s.(t := Revoke(s.t, key, storage).0);
    if storage {
      RevokeRows(s.t, key);
    }
    forall k | k in next.t.devices ensures DeviceFine(next, k) && RowStays(s.t, next.t, k) {
      assert DeviceFine(s, k);
    }
    forall r | r in next.log ensures EntryFine(next, r) {
      assert EntryFine(s, r);
    }
  }

  lemma {:induction false} RevokeEachFine(s: State, keys: seq<string>, budget: nat, lost: bool)
    requires Fine(s) && forall k | k in keys :: k in s.revocations
    ensures var p := RevokeEach(s, keys, budget, lost);
            && Fine(p.s) && Forward(s, p.s) && p.s.revocations == s.revocations && p.s.log == s.log
               && p.s.open == s.open
            && p.s.t.devices.Keys == s.t.devices.Keys
            && (p.Going? ==> forall k | k in keys :: k in p.s.t.devices && p.s.t.devices[k].revoked)
    decreases |keys|
  {
    if keys == [] {
      ForwardReflexive(s);
    } else {
      var next := s.(t := Revoke(s.t, keys[0], budget > 0 || lost).0);
      RevokeOneFine(s, keys[0], budget > 0 || lost);
      assert next.t.devices.Keys == s.t.devices.Keys by {
        if budget > 0 || lost {
          RevokeRows(s.t, keys[0]);
        }
      }
      if budget > 0 {
        RevokeEachFine(next, keys[1..], budget - 1, lost);
        var p := RevokeEach(s, keys, budget, lost);
        ForwardTransitive(s, next, p.s);
        assert RowStays(next.t, p.s.t, keys[0]);
        assert p.Going? ==> forall k | k in keys :: k == keys[0] || k in keys[1..];
      }
    }
  }

  /** Afterwards the registry has caught up. */
  lemma RevokeAllCatchesUp(s: State, budget: nat, lost: bool)
    requires Fine(s) && RevokeEach(s, s.revocations, budget, lost).Going?
    ensures CaughtUp(RevokeEach(s, s.revocations, budget, lost).s)
  {
    RevokeEachFine(s, s.revocations, budget, lost);
  }

  lemma PublishFine(env: Env, s: State, r: Registration, historical: bool, budget: nat, lost: bool)
    requires Fine(s) && r.payload.natsKey in s.t.devices && s.t.devices[r.payload.natsKey].registration == r
    ensures var p := Publish(env, s, r, historical, budget, lost);
            && Fine(p.s) && Forward(s, p.s) && p.s.t == s.t && p.s.revocations == s.revocations && p.s.open == s.open
            && (p.Going? ==> r in p.s.log)
  {
    var p := Publish(env, s, r, historical, budget, lost);
    forall k | k in s.t.devices ensures RowStays(s.t, s.t, k) && DeviceFine(p.s, k) {
      assert DeviceFine(s, k);
    }
    forall e | e in p.s.log ensures EntryFine(p.s, e) {
      assert e in s.log ==> EntryFine(s, e);
    }
    if Logged(s.log, r) && !Conflicts(s.log, r) {
      var i :| 0 <= i < |s.log| && SameEndpoint(s.log[i], r);
      assert s.log[i] == r;
    }
  }

  /** A registration that differs from the enrolled one is refused once the device is ready. */
  lemma ForeignRefused(env: Env, s: State, r: Registration, historical: bool, budget: nat, lost: bool)
    requires Fine(s) && r.payload.natsKey in s.t.devices && s.t.devices[r.payload.natsKey].ready
             && s.t.devices[r.payload.natsKey].registration != r
    ensures Publish(env, s, r, historical, budget, lost) == Failed(s)
  {
    assert DeviceFine(s, r.payload.natsKey);
    var own := s.t.devices[r.payload.natsKey].registration;
    var i :| 0 <= i < |s.log| && s.log[i] == own;
    if EnrolledAs(s.t, r, historical) {
      assert SameEndpoint(s.log[i], r);
    }
  }

  /** The rows of two tables are the same but for one device that is ready now. */
  ghost predicate OnlyReadies(t: Tables, t': Tables, key: string) {
    && t'.devices.Keys == t.devices.Keys
    && forall k {:trigger t'.devices[k]} | k in t.devices ::
         t'.devices[k] == t.devices[k] || (k == key && t'.devices[k] == t.devices[k].(ready := true))
  }

  lemma ReadyRows(s: State, key: string, budget: nat, lost: bool)
    ensures var p := Ready(s, key, budget, lost);
            && p.s == s.(t := p.s.t) && OnlyReadies(s.t, p.s.t, key)
            && (p.Going? ==> key in p.s.t.devices && p.s.t.devices[key].ready)
  {}

  lemma ReadiedFine(s: State, t: Tables, key: string)
    requires Fine(s) && OnlyReadies(s.t, t, key) && (key in s.t.devices ==> s.t.devices[key].registration in s.log)
    ensures Fine(s.(t := t)) && Forward(s, s.(t := t))
    ensures forall k | k in s.t.devices :: t.devices[k].(ready := true) == s.t.devices[k].(ready := true)
  {
    var next := s.(t := t);
    forall k | k in s.t.devices ensures RowStays(s.t, t, k) && DeviceFine(next, k) {
      assert DeviceFine(s, k);
    }
    forall e | e in next.log ensures EntryFine(next, e) {
      assert EntryFine(s, e);
    }
  }

  lemma ReadyFine(s: State, key: string, budget: nat, lost: bool)
    requires Fine(s) && (key in s.t.devices ==> s.t.devices[key].registration in s.log)
    ensures var p := Ready(s, key, budget, lost);
            && Fine(p.s) && Forward(s, p.s) && p.s.log == s.log && p.s.revocations == s.revocations
               && p.s.open == s.open
            && p.s.t.devices.Keys == s.t.devices.Keys
            && (forall k | k in s.t.devices :: p.s.t.devices[k].(ready := true) == s.t.devices[k].(ready := true))
            && (p.Going? ==> key in p.s.t.devices && p.s.t.devices[key].ready)
  {
    ReadyRows(s, key, budget, lost);
    ReadiedFine(s, Ready(s, key, budget, lost).s.t, key);
  }

  /** Publishing and activating an enrolled device. */
  lemma PublishAndReadyFine(env: Env, s: State, r: Registration, historical: bool, budget: nat, lost: bool)
    requires Fine(s) && r.payload.natsKey in s.t.devices && s.t.devices[r.payload.natsKey].registration == r
    ensures var p := PublishAndReady(env, s, r, historical, budget, lost);
            && Fine(p.s) && Forward(s, p.s) && p.s.revocations == s.revocations && p.s.open == s.open
            && p.s.t.devices.Keys == s.t.devices.Keys
            && (forall k | k in s.t.devices :: p.s.t.devices[k].(ready := true) == s.t.devices[k].(ready := true))
            && (p.Going? ==> p.s.t.devices[r.payload.natsKey].ready)
  {
    PublishFine(env, s, r, historical, budget, lost);
    var p := Publish(env, s, r, historical, budget, lost);
    if p.Going? {
      ReadyFine(p.s, r.payload.natsKey, p.budget, lost);
      ForwardTransitive(s, p.s, Ready(p.s, r.payload.natsKey, p.budget, lost).s);
    }
  }

  lemma {:induction false} PublishEachFine(env: Env, s: State, keys: seq<string>, budget: nat, lost: bool)
    requires Fine(s)
    ensures var p := PublishEach(env, s, keys, budget, lost);
            && Fine(p.s) && Forward(s, p.s) && p.s.revocations == s.revocations && p.s.open == s.open
            && p.s.t.devices.Keys == s.t.devices.Keys
            && (forall k | k in s.t.devices :: p.s.t.devices[k].revoked == s.t.devices[k].revoked)
            && (p.Going? ==> forall k | k in keys :: k in p.s.t.devices && p.s.t.devices[k].ready)
    decreases |keys|
  {
    ForwardReflexive(s);
    if keys != [] && keys[0] in s.t.devices {
      var r := s.t.devices[keys[0]].registration;
      assert DeviceFine(s, keys[0]);
      PublishAndReadyFine(env, s, r, true, budget, lost);
      var p := PublishAndReady(env, s, r, true, budget, lost);
      if p.Going? {
        PublishEachFine(env, p.s, keys[1..], p.budget, lost);
        var q := PublishEach(env, p.s, keys[1..], p.budget, lost);
        ForwardTransitive(s, p.s, q.s);
        assert RowStays(p.s.t, q.s.t, keys[0]);
      }
    }
  }

  lemma {:induction false} ListingCovers(keys: set<string>)
    ensures forall k :: k in Listing(keys) <==> k in keys
    decreases |keys|
  {
    if keys != {} {
      var k := Listing(keys)[0];
      ListingCovers(keys - {k});
      assert Listing(keys)[1..] == Listing(keys - {k});
      forall x ensures x in Listing(keys) <==> x in keys {
        assert x in Listing(keys) <==> x == k || x in Listing(keys)[1..];
      }
    }
  }

  /** Nothing is left to publish, activate or revoke. */
  ghost predicate Settled(s: State) {
    CaughtUp(s) && forall k | k in s.t.devices && !s.t.devices[k].revoked :: s.t.devices[k].ready
  }

  lemma RepairFine(env: Env, s: State, budget: nat, lost: bool)
    requires Fine(s)
    ensures var p := Repair(env, s, budget, lost);
            Fine(p.s) && Forward(s, p.s) && p.s.open == s.open && (p.Going? ==> Settled(p.s))
  {
    RevokeEachFine(s, s.revocations, budget, lost);
    var a := RevokeEach(s, s.revocations, budget, lost);
    if a.Going? {
      RevokeAllCatchesUp(s, budget, lost);
      var keys := Listing(Active(a.s.t));
      ListingCovers(Active(a.s.t));
      PublishEachFine(env, a.s, keys, a.budget, lost);
      var p := PublishEach(env, a.s, keys, a.budget, lost);
      ForwardTransitive(s, a.s, p.s);
    }
  }

  // ---- What every request keeps ----

  lemma EnrollRowsFine(env: Env, s: State, token: Option<Credential>, r: Registration, now: int, storage: bool)
    requires Fine(s)
    ensures var (t, ok) := Enroll(env, s.t, token, r, now, storage);
            var next := s.(t := t);
            && Fine(next) && Forward(s, next) && (CaughtUp(s) ==> CaughtUp(next))
            && (ok ==> r.payload.natsKey in t.devices && t.devices[r.payload.natsKey].registration == r)
  {
    var t := Enroll(env, s.t, token, r, now, storage).0;
    var next := s.(t := t);
    forall k | k in t.devices ensures DeviceFine(next, k) {
      assert k in s.t.devices ==> DeviceFine(s, k);
    }
    forall k | k in s.t.devices ensures RowStays(s.t, t, k) {}
    forall e | e in next.log ensures EntryFine(next, e) {
      assert EntryFine(s, e);
    }
  }

  lemma PolicyRowsFine(env: Env, s: State, policy: SignedPolicy, rate: bool, storage: bool)
    requires Fine(s)
    ensures var next := s.(t := ApplyPolicy(env, s.t, policy, rate, storage).0);
            Fine(next) && Forward(s, next) && (CaughtUp(s) ==> CaughtUp(next))
  {
    var next := s.(t := ApplyPolicy(env, s.t, policy, rate, storage).0);
    forall k | k in next.t.devices ensures DeviceFine(next, k) && RowStays(s.t, next.t, k) {
      assert DeviceFine(s, k);
    }
    forall e | e in next.log ensures EntryFine(next, e) {
      assert EntryFine(s, e);
    }
  }

  lemma AppendedFine(s: State, key: string)
    requires Fine(s) && exists i | 0 <= i < |s.log| :: s.log[i].payload.natsKey == key
    ensures var next := s.(revocations := s.revocations + [key]); Fine(next) && Forward(s, next)
  {
    var next := s.(revocations := s.revocations + [key]);
    var i :| 0 <= i < |s.log| && s.log[i].payload.natsKey == key;
    assert EntryFine(s, s.log[i]);
    forall k | k in s.t.devices ensures DeviceFine(next, k) && RowStays(s.t, next.t, k) {
      assert DeviceFine(s, k);
    }
    forall e | e in next.log ensures EntryFine(next, e) {
      assert EntryFine(s, e);
    }
  }

  /** Revoking everything in a log that has the key revokes the key. */
  lemma EnforceFine(s: State, key: string, budget: nat, lost: bool)
    requires Fine(s) && key in s.revocations
    ensures var p := RevokeEach(s, s.revocations, budget, lost);
            && Fine(p.s) && Forward(s, p.s) && p.s.open == s.open
            && (p.Going? ==> CaughtUp(p.s) && key in p.s.t.devices && p.s.t.devices[key].revoked)
  {
    RevokeEachFine(s, s.revocations, budget, lost);
  }

  lemma AppendFine(s: State, key: string, permitted: bool, budget: nat, lost: bool)
    requires Fine(s)
    ensures var p := Append(s, key, permitted, budget, lost);
            && Fine(p.s) && Forward(s, p.s) && p.s.open == s.open
            && (p.Going? ==> CaughtUp(p.s) && key in p.s.t.devices && p.s.t.devices[key].revoked)
  {
    ForwardReflexive(s);
    if permitted && exists i | 0 <= i < |s.log| :: s.log[i].payload.natsKey == key {
      if key in s.revocations {
        EnforceFine(s, key, budget, lost);
      } else {
        AppendedFine(s, key);
        var next := s.(revocations := s.revocations + [key]);
        if budget > 0 {
          EnforceFine(next, key, budget - 1, lost);
          ForwardTransitive(s, next, RevokeEach(next, next.revocations, budget - 1, lost).s);
        }
      }
    }
  }

  lemma RegisterFine(env: Env, s: State, r: Registration, budget: nat, lost: bool)
    requires Fine(s) && CaughtUp(s)
    ensures var p := Act(env, s, RegisterDevice(r), budget, lost);
            Fine(p.s) && Forward(s, p.s) && p.s.open == s.open && CaughtUp(p.s)
  {
    ForwardReflexive(s);
    if Authorized(env, s.t, r.payload.natsKey) {
      if s.t.devices[r.payload.natsKey].registration == r {
        PublishFine(env, s, r, false, budget, lost);
      } else {
        ForeignRefused(env, s, r, false, budget, lost);
      }
    }
  }

  lemma EnrollFine(env: Env, s: State, token: Option<Credential>, r: Registration, now: int, budget: nat, lost: bool)
    requires Fine(s) && CaughtUp(s)
    ensures var p := Act(env, s, EnrollDevice(token, r, now), budget, lost);
            Fine(p.s) && Forward(s, p.s) && p.s.open == s.open && CaughtUp(p.s)
  {
    EnrollRowsFine(env, s, token, r, now, budget > 0 || lost);
    var (t, ok) := Enroll(env, s.t, token, r, now, budget > 0 || lost);
    var next := s.(t := t);
    if ok && budget > 0 {
      PublishAndReadyFine(env, next, r, false, budget - 1, lost);
      var p := PublishAndReady(env, next, r, false, budget - 1, lost);
      ForwardTransitive(s, next, p.s);
      forall k | k in p.s.revocations && k in p.s.t.devices ensures p.s.t.devices[k].revoked {
        assert next.t.devices[k].revoked;
      }
    }
  }

  lemma ActFine(env: Env, s: State, q: Request, budget: nat, lost: bool)
    requires Fine(s) && CaughtUp(s)
    ensures var p := Act(env, s, q, budget, lost);
            Fine(p.s) && Forward(s, p.s) && p.s.open == s.open && (p.Going? ==> CaughtUp(p.s))
  {
    match q
    case EnrollDevice(token, r, now) => EnrollFine(env, s, token, r, now, budget, lost);
    case RegisterDevice(r) => RegisterFine(env, s, r, budget, lost);
    case RevokeDevice(key, permitted) => AppendFine(s, key, permitted, budget, lost);
    case ChangePolicy(policy, rate) => PolicyRowsFine(env, s, policy, rate, budget > 0 || lost);
    case _ => ForwardReflexive(s);
  }

  /** While the gate is open there is nothing left to revoke, so a read-only request leaves it open and right. */
  lemma ServeFine(env: Env, s: State, q: Request, budget: nat, lost: bool)
    requires Inv(s)
    ensures var (next, ok) := Serve(env, s, q, budget, lost);
            Inv(next) && Forward(s, next)
  {
    ForwardReflexive(s);
    var start := if Mutates(q) then s.(open := false) else s;
    SameButGate(s, start);
    RevokeEachFine(start, start.revocations, budget, lost);
    var a := RevokeEach(start, start.revocations, budget, lost);
    ForwardTransitive(s, start, a.s);
    if a.Going? {
      RevokeAllCatchesUp(start, budget, lost);
      ActFine(env, a.s, q, a.budget, lost);
      var p := Act(env, a.s, q, a.budget, lost);
      ForwardTransitive(s, a.s, p.s);
      SameButGate(p.s, p.s.(open := true));
      ForwardTransitive(s, p.s, p.s.(open := true));
    } else if s.open {
      StillCaughtUp(s, a.s);
    }
  }

  lemma SameButGate(s: State, next: State)
    requires next == s.(open := next.open)
    ensures Forward(s, next) && (Fine(s) ==> Fine(next))
  {
    ForwardReflexive(s);
    if Fine(s) {
      forall k | k in next.t.devices ensures DeviceFine(next, k) {
        assert DeviceFine(s, k);
      }
      forall e | e in next.log ensures EntryFine(next, e) {
        assert EntryFine(s, e);
      }
    }
  }

  lemma StillCaughtUp(s: State, next: State)
    requires CaughtUp(s) && Forward(s, next) && next.revocations == s.revocations
             && next.t.devices.Keys == s.t.devices.Keys
    ensures CaughtUp(next)
  {
    forall k | k in next.revocations && k in next.t.devices ensures next.t.devices[k].revoked {
      assert RowStays(s.t, next.t, k);
    }
  }

  lemma TryRepairFine(env: Env, s: State, budget: nat, lost: bool)
    requires Inv(s) && !s.open
    ensures var next := TryRepair(env, s, budget, lost);
            Inv(next) && Forward(s, next) && (next.open ==> Settled(next))
  {
    RepairFine(env, s, budget, lost);
    var p := Repair(env, s, budget, lost);
    SameButGate(p.s, p.s.(open := true));
    ForwardTransitive(s, p.s, p.s.(open := true));
  }

  /** An invitation changes no device. */
  lemma InvitationFine(env: Env, s: State, next: State)
    requires Inv(s) && next == s.(t := next.t) && next.t.devices == s.t.devices
    ensures Inv(next) && Forward(s, next)
  {
    forall k | k in next.t.devices ensures DeviceFine(next, k) && RowStays(s.t, next.t, k) {
      assert DeviceFine(s, k);
    }
    forall r | r in next.log ensures EntryFine(next, r) {
      assert EntryFine(s, r);
    }
  }

  lemma NextFine(env: Env, s: State, step: Step)
    requires Inv(s)
    ensures Inv(Next(env, s, step)) && Forward(s, Next(env, s, step))
  {
    match step
    case Invitation(handle, ttl, newUser, secret, now, storage) =>
      InvitationFine(env, s, Next(env, s, step));
    case Handle(q, budget, lost, repairBudget, repairLost) =>
      ServeFine(env, s, q, budget, lost);
      var next := Serve(env, s, q, budget, lost).0;
      if !next.open {
        TryRepairFine(env, next, repairBudget, repairLost);
        ForwardTransitive(s, next, TryRepair(env, next, repairBudget, repairLost));
      }
    case Tick(budget, lost) =>
      ForwardReflexive(s);
      if !s.open {
        TryRepairFine(env, s, budget, lost);
      }
    case Crash(q, budget, lost) =>
      ServeFine(env, s, q, budget, lost);
      var next := Serve(env, s, q, budget, lost).0;
      SameButGate(next, next.(open := false));
      ForwardTransitive(s, next, next.(open := false));
  }

  lemma {:induction false} RunFine(env: Env, s: State, steps: seq<Step>)
    requires Inv(s)
    ensures Inv(Run(env, s, steps)) && Forward(s, Run(env, s, steps))
    decreases |steps|
  {
    if steps == [] {
      ForwardReflexive(s);
    } else {
      NextFine(env, s, steps[0]);
      RunFine(env, Next(env, s, steps[0]), steps[1..]);
      ForwardTransitive(s, Next(env, s, steps[0]), Run(env, s, steps));
    }
  }

  // ---- What follows for whole runs ----

  /** Publish before admit: in every reachable state a ready device is in the transparency log. */
  lemma ReadyIsPublished(env: Env, steps: seq<Step>, k: string)
    ensures var s := Run(env, START, steps);
           k in s.t.devices && s.t.devices[k].ready
           ==> s.t.devices[k].registration in s.log
  {
    RunFine(env, START, steps);
    var s := Run(env, START, steps);
    if k in s.t.devices {
      assert DeviceFine(s, k);
    }
  }

  /** Whenever the gate is open, an enrolled device is revoked in the registry exactly when the log revokes it. */
  lemma OpenGateMeansAgreement(env: Env, steps: seq<Step>, k: string)
    ensures var s := Run(env, START, steps);
           s.open && k in s.t.devices
           ==> (s.t.devices[k].revoked <==> k in s.revocations)
  {
    RunFine(env, START, steps);
    var s := Run(env, START, steps);
    if k in s.t.devices {
      assert DeviceFine(s, k);
    }
  }

  /** Nobody outside the registry is ever published or revoked. */
  lemma LogsNameEnrolledDevices(env: Env, steps: seq<Step>)
    ensures var s := Run(env, START, steps);
            && (forall r | r in s.log ::
                 r.payload.natsKey in s.t.devices
                 && s.t.devices[r.payload.natsKey].registration == r)
            && (forall k | k in s.revocations :: k in s.t.devices)
  {
    RunFine(env, START, steps);
    var s := Run(env, START, steps);
    forall r | r in s.log ensures r.payload.natsKey in s.t.devices && s.t.devices[r.payload.natsKey].registration == r {
      assert EntryFine(s, r);
    }
  }

  /** A tick that opens the gate leaves nothing half done: every device is published and ready, or revoked. */
  lemma RepairSettles(env: Env, steps: seq<Step>, budget: nat, lost: bool)
    requires !Run(env, START, steps).open && Run(env, START, steps + [Tick(budget, lost)]).open
    ensures Settled(Run(env, START, steps + [Tick(budget, lost)]))
  {
    RunFine(env, START, steps);
    RunSnoc(env, START, steps, Tick(budget, lost));
    TryRepairFine(env, Run(env, START, steps), budget, lost);
  }

  lemma {:induction false} RunSnoc(env: Env, s: State, steps: seq<Step>, step: Step)
    ensures Run(env, s, steps + [step]) == Next(env, Run(env, s, steps), step)
    decreases |steps|
  {
    if steps == [] {
      assert Run(env, Next(env, s, step), []) == Next(env, s, step);
      assert ([step])[1..] == [];
    } else {
      assert (steps + [step])[1..] == steps[1..] + [step];
      RunSnoc(env, Next(env, s, steps[0]), steps[1..], step);
    }
  }

  /** An accepted revocation is enforced from then on, across crashes and failures. */
  lemma AcceptedRevocationIsEnforced(env: Env, before: seq<Step>, key: string, permitted: bool, budget: nat,
                                     lost: bool, steps: seq<Step>)
    requires Serve(env, Run(env, START, before), RevokeDevice(key, permitted), budget, lost).1
    ensures var s := Run(env, Serve(env, Run(env, START, before), RevokeDevice(key, permitted), budget, lost).0, steps);
            key in s.revocations && key in s.t.devices && s.t.devices[key].revoked && !Authorized(env, s.t, key)
  {
    var s := Run(env, START, before);
    RunFine(env, START, before);
    ServeFine(env, s, RevokeDevice(key, permitted), budget, lost);
    var start := s.(open := false);
    SameButGate(s, start);
    RevokeEachFine(start, start.revocations, budget, lost);
    var a := RevokeEach(start, start.revocations, budget, lost);
    AppendFine(a.s, key, permitted, a.budget, lost);
    var next := Serve(env, s, RevokeDevice(key, permitted), budget, lost).0;
    RunFine(env, next, steps);
    assert DeviceFine(next, key) && RowStays(next.t, Run(env, next, steps).t, key);
  }
}
