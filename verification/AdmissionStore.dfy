/**
 * The request loop of crates/epochgrid-service/src/dynamic.rs as methods over the registry. The
 * repair loop takes the registrations in whatever order the query returns them.
 */
module AdmissionStore {
  import opened Prelude
  import opened Wire
  import opened Registry
  import opened Admission
  import RegistryStore

  /** `left` is None once the script has failed. */
  function Reached(s: State, left: Option<nat>): Progress {
    if left.Some? then Going(s, left.value) else Failed(s)
  }

  class Authority {
    const env: Env
    const registry: RegistryStore.AuthRegistry
    var log: seq<Registration>
    var revocations: seq<string>
    var open: bool

    ghost function Now(): State
      reads this, registry
    {
      State(registry.db, log, revocations, open)
    }

    ghost predicate Valid()
      reads registry
    {
      registry.env == env && registry.Valid()
    }

    constructor (env: Env)
      ensures Valid() && this.env == env && Now() == START && fresh(registry)
    {
      this.env := env;
      this.registry := new RegistryStore.AuthRegistry(env);
      this.log, this.revocations, this.open := [], [], false;
    }

    method RevokeLogged(keys: seq<string>, budget: nat, lost: bool) returns (left: Option<nat>)
      requires Valid()
      modifies registry`db
      ensures Valid()
      ensures Reached(Now(), left) == RevokeEach(old(Now()), keys, budget, lost)
    {
      hide RegistryStore.AuthRegistry.Valid;
      ghost var whole := RevokeEach(Now(), keys, budget, lost);
      var rest := budget;
      for i := 0 to |keys|
        invariant Valid()
        invariant log == old(log) && revocations == old(revocations) && open == old(open)
        invariant RevokeEach(Now(), keys[i..], rest, lost) == whole
      {
        var _ := registry.RevokeDevice(keys[i], rest > 0 || lost);
        if rest == 0 {
          return None;
        }
        rest := rest - 1;
      }
      return Some(rest);
    }

    method PublishRegistration(r: Registration, historical: bool, budget: nat, lost: bool) returns (left: Option<nat>)
      modifies this`log
      ensures Reached(Now(), left) == Publish(env, old(Now()), r, historical, budget, lost)
    {
      if !ValidRegistration(env.p, r) || !env.packageValid(r) || !EnrolledAs(registry.db, r, historical) {
        return None;
      }
      if Conflicts(log, r) {
        return None;
      }
      if Logged(log, r) {
        return Some(budget);
      }
      if budget > 0 || lost {
        log := log + [r];
      }
      return if budget == 0 then None else Some(budget - 1);
    }

    method ActivateDevice(key: string, budget: nat, lost: bool) returns (left: Option<nat>)
      requires Valid()
      modifies registry`db
      ensures Valid()
      ensures Reached(Now(), left) == Ready(old(Now()), key, budget, lost)
    {
      hide RegistryStore.AuthRegistry.Valid;
      var ok := registry.ActivateDevice(key, budget > 0 || lost);
      return if ok && budget > 0 then Some(budget - 1) else None;
    }

    /** Publish before activate: wherever it is cut off, what became ready is in the log. */
    method PublishThenActivate(r: Registration, historical: bool, budget: nat, lost: bool) returns (left: Option<nat>)
      requires Valid()
      modifies this`log, registry`db
      ensures Valid()
      ensures Reached(Now(), left) == PublishAndReady(env, old(Now()), r, historical, budget, lost)
      ensures forall k | BecomesReady(old(registry.db), registry.db, k) :: k == r.payload.natsKey && r in log
    {
      hide RegistryStore.AuthRegistry.Valid;
      PublishedFirst(env, Now(), r, historical, budget, lost);
      left := PublishRegistration(r, historical, budget, lost);
      if left.Some? {
        left := ActivateDevice(r.payload.natsKey, left.value, lost);
      }
    }

    /** `repair_state`: when it completes, every device is published and ready, or revoked. */
    method RepairState(budget: nat, lost: bool) returns (left: Option<nat>)
      requires Valid() && Fine(Now())
      modifies this`log, registry`db
      ensures Valid() && Fine(Now()) && Forward(old(Now()), Now())
      ensures left.Some? ==> Settled(Now())
    {
      hide RegistryStore.AuthRegistry.Valid;
      ghost var start := Now();
      RevokeEachFine(Now(), revocations, budget, lost);
      left := RevokeLogged(revocations, budget, lost);
      if left.None? {
        return;
      }
      RevokeAllCatchesUp(start, budget, lost);
      left := PublishAll(left.value, lost, start);
    }

    method PublishAll(budget: nat, lost: bool, ghost start: State) returns (left: Option<nat>)
      requires Valid() && Fine(Now()) && CaughtUp(Now()) && Forward(start, Now())
      modifies this`log, registry`db
      ensures Valid() && Fine(Now()) && Forward(start, Now())
      ensures left.Some? ==> Settled(Now())
    {
      hide RegistryStore.AuthRegistry.Valid;
      left := Some(budget);
      var todo := Active(registry.db);
      while todo != {}
        invariant Valid() && Fine(Now()) && CaughtUp(Now()) && Forward(start, Now())
        invariant left.Some? && revocations == old(revocations)
        invariant todo <= Active(registry.db)
        invariant forall k | k in Active(registry.db) - todo :: registry.db.devices[k].ready
        decreases todo
      {
        var key :| key in todo;
        todo := todo - {key};
        ghost var before := Now();
        assert DeviceFine(before, key);
        PublishAndReadyFine(env, before, before.t.devices[key].registration, true, left.value, lost);
        left := PublishOne(key, left.value, lost);
        ForwardTransitive(start, before, Now());
        if left.None? {
          return;
        }
        StillActive(before, Now());
        forall k | k in Active(registry.db) - todo ensures registry.db.devices[k].ready {
          assert RowStays(before.t, registry.db, k);
        }
      }
    }

    method PublishOne(key: string, budget: nat, lost: bool) returns (left: Option<nat>)
      requires Valid() && key in registry.db.devices
      modifies this`log, registry`db
      ensures Valid()
      ensures Reached(Now(), left)
              == PublishAndReady(env, old(Now()), old(registry.db).devices[key].registration, true, budget, lost)
    {
      hide RegistryStore.AuthRegistry.Valid;
      left := PublishThenActivate(registry.db.devices[key].registration, true, budget, lost);
    }

    /** `revocation::append` and the revocations that follow. */
    method AppendRevocation(key: string, permitted: bool, budget: nat, lost: bool) returns (left: Option<nat>)
      requires Valid()
      modifies this`revocations, registry`db
      ensures Valid()
      ensures Reached(Now(), left) == Append(old(Now()), key, permitted, budget, lost)
    {
      hide RegistryStore.AuthRegistry.Valid;
      if !permitted || !(exists i | 0 <= i < |log| :: log[i].payload.natsKey == key) {
        return None;
      }
      if key in revocations {
        left := RevokeLogged(revocations, budget, lost);
        return;
      }
      if budget > 0 || lost {
        revocations := revocations + [key];
      }
      if budget == 0 {
        return None;
      }
      left := RevokeLogged(revocations, budget - 1, lost);
    }

    method EnrollAndPublish(token: Option<Credential>, r: Registration, now: int, budget: nat, lost: bool)
      returns (left: Option<nat>)
      requires Valid()
      modifies this`log, registry`db
      ensures Valid()
      ensures Reached(Now(), left) == Act(env, old(Now()), EnrollDevice(token, r, now), budget, lost)
    {
      hide RegistryStore.AuthRegistry.Valid;
      var ok := registry.EnrollDevice(token, r, now, budget > 0 || lost);
      if !ok || budget == 0 {
        return None;
      }
      left := PublishThenActivate(r, false, budget - 1, lost);
    }

    method Change(policy: SignedPolicy, rate: bool, budget: nat, lost: bool) returns (left: Option<nat>)
      requires Valid()
      modifies registry`db
      ensures Valid()
      ensures Reached(Now(), left) == Act(env, old(Now()), ChangePolicy(policy, rate), budget, lost)
    {
      hide RegistryStore.AuthRegistry.Valid;
      var generation := registry.ChangePolicy(policy, rate, budget > 0 || lost);
      return if generation.Some? && budget > 0 then Some(budget - 1) else None;
    }

    method ActOn(q: Request, budget: nat, lost: bool) returns (left: Option<nat>)
      requires Valid()
      modifies this`log, this`revocations, registry`db
      ensures Valid()
      ensures Reached(Now(), left) == Act(env, old(Now()), q, budget, lost)
    {
      hide RegistryStore.AuthRegistry.Valid;
      match q
      case EnrollDevice(token, r, now) =>
        left := EnrollAndPublish(token, r, now, budget, lost);
      case RegisterDevice(r) =>
        if !Authorized(env, registry.db, r.payload.natsKey) {
          return None;
        }
        left := PublishRegistration(r, false, budget, lost);
      case RevokeDevice(key, permitted) =>
        left := AppendRevocation(key, permitted, budget, lost);
      case ChangePolicy(policy, rate) =>
        left := Change(policy, rate, budget, lost);
      case Misaddressed =>
        return Some(budget);
      case ReadOnly =>
        return Some(budget);
      case Refused =>
        return None;
    }

    /** The gate is closed before the first effect of a mutating request and opened after its last. */
    method ServeRequest(q: Request, budget: nat, lost: bool) returns (ok: bool)
      requires Valid()
      modifies this, registry`db
      ensures Valid()
      ensures (Now(), ok) == Serve(env, old(Now()), q, budget, lost)
      ensures !Mutates(q) ==> open == old(open)
      ensures Mutates(q) && !q.Misaddressed? ==> open == ok
      ensures q.Misaddressed? ==> !ok && open == (|old(revocations)| < budget)
    {
      hide RegistryStore.AuthRegistry.Valid;
      GateTellsSuccess(env, Now(), q, budget, lost);
      if q.Refused? {
        return false;
      }
      if Mutates(q) {
        open := false;
      }
      var left := RevokeLogged(revocations, budget, lost);
      if left.None? {
        return false;
      }
      left := ActOn(q, left.value, lost);
      if left.None? {
        return false;
      }
      if Mutates(q) {
        if left.value == 0 {
          return false;
        }
        open := true;
      }
      return !q.Misaddressed?;
    }

    /** One turn of the loop: serve, and repair at once if the gate is still closed. */
    method HandleRequest(q: Request, budget: nat, lost: bool, repairBudget: nat, repairLost: bool) returns (ok: bool)
      requires Valid() && Inv(Now())
      modifies this, registry`db
      ensures Valid() && Inv(Now()) && Forward(old(Now()), Now())
      ensures ok <==> Serve(env, old(Now()), q, budget, lost).1
      ensures open && !Serve(env, old(Now()), q, budget, lost).0.open ==> Settled(Now())
    {
      ghost var before := Now();
      ServeFine(env, before, q, budget, lost);
      ok := ServeRequest(q, budget, lost);
      if !open {
        ghost var served := Now();
        RepairTick(repairBudget, repairLost);
        ForwardTransitive(before, served, Now());
      }
    }

    method RepairTick(budget: nat, lost: bool)
      requires Valid() && Inv(Now()) && !open
      modifies this, registry`db
      ensures Valid() && Inv(Now()) && Forward(old(Now()), Now())
      ensures open ==> Settled(Now())
    {
      hide RegistryStore.AuthRegistry.Valid;
      ghost var before := Now();
      var left := RepairState(budget, lost);
      if left.Some? && left.value > 0 {
        ghost var repaired := Now();
        open := true;
        SameButGate(repaired, Now());
        ForwardTransitive(before, repaired, Now());
      }
    }
  }

  /** Activating leaves the active devices active and the ready ones ready. */
  lemma StillActive(s: State, next: State)
    requires next.t.devices.Keys == s.t.devices.Keys && next.revocations == s.revocations
    requires forall k | k in s.t.devices :: next.t.devices[k].(ready := true) == s.t.devices[k].(ready := true)
    ensures Active(next.t) == Active(s.t) && (CaughtUp(s) ==> CaughtUp(next))
  {
    forall k | k in s.t.devices ensures next.t.devices[k].revoked == s.t.devices[k].revoked {
      assert next.t.devices[k].(ready := true) == s.t.devices[k].(ready := true);
    }
  }
}
