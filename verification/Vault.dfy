/**
 * Crash-safe provisioning of credentials: `Vault::ensure` and `SecretRef::read_with` of
 * crates/epochgrid-core/src/secrets.rs. A call makes at most three durable changes: the slot is
 * saved, the secret is created, the slot is saved again with its public key. `budget` says how many
 * of them take place before the call is cut off by a crash or an error; one more lets it return.
 */
module Vault {
  import opened Prelude

  datatype Kind = User | Account | XKey | Database

  datatype SecretRef = SecretRef(id: string, kind: Kind, publicKey: string)

  datatype Slot = Slot(id: string, kind: Kind, publicKey: Option<string>)

  /** credentials.json, the keyring, and every id ever passed to a successful create. */
  datatype State = State(slots: map<string, Slot>, keyring: map<string, string>, created: seq<string>)

  /** `publicOf` is None for a secret that is not one of this kind. */
  datatype Env = Env(publicOf: (Kind, string) -> Option<string>, validId: string -> bool)

  /** What a call draws at random. */
  datatype Draw = Draw(id: string, secret: string)

  const ROLE_LIMIT: nat := 64

  // ---- Operations ----

  /** `SecretRef::read_with`. */
  function ReadWith(env: Env, s: State, r: SecretRef): Option<string> {
    if !env.validId(r.id) || r.id !in s.keyring || env.publicOf(r.kind, s.keyring[r.id]) != Some(r.publicKey) then None
    else Some(s.keyring[r.id])
  }

  /** The slot of the role, saved before anything else refers to it. */
  function Reserve(s: State, role: string, kind: Kind, id: string, budget: nat): (State, nat, bool) {
    if role in s.slots then (s, budget, true)
    else if budget == 0 then (s, 0, false)
    else (s.(slots := s.slots[role := Slot(id, kind, None)]), budget - 1, true)
  }

  /** The secret of the slot: the one in the keyring, or a new one if none was ever recorded. */
  function Obtain(env: Env, s: State, slot: Slot, imported: Option<string>, generated: string,
                  budget: nat): (State, nat, Option<string>) {
    if slot.id in s.keyring then (s, budget, Some(s.keyring[slot.id]))
    else if slot.publicKey.Some? then (s, budget, None)
    else
      var secret := if imported.Some? then imported.value else generated;
      if env.publicOf(slot.kind, secret).None? || budget == 0 then (s, budget, None)
      else (s.(keyring := s.keyring[slot.id := secret], created := s.created + [slot.id]), budget - 1, Some(secret))
  }

  /** Bind the slot to the public key of its secret. */
  function Bind(env: Env, s: State, role: string, secret: string, imported: Option<string>,
                budget: nat): (State, Option<SecretRef>)
    requires role in s.slots
  {
    var slot := s.slots[role];
    var public := env.publicOf(slot.kind, secret);
    if public.None? || (slot.publicKey.Some? && slot.publicKey != public)
       || (imported.Some? && env.publicOf(slot.kind, imported.value) != public) || budget == 0 then (s, None)
    else
      (s.(slots := s.slots[role := slot.(publicKey := public)]),
       if budget > 1 then Some(SecretRef(slot.id, slot.kind, public.value)) else None)
  }

  /** `ensure`. */
  function Ensure(env: Env, s: State, role: string, kind: Kind, imported: Option<string>, d: Draw,
                  budget: nat): (State, Option<SecretRef>) {
    if role == "" || |role| > ROLE_LIMIT then (s, None)
    else
      var (a, left, reserved) := Reserve(s, role, kind, d.id, budget);
      if !reserved || a.slots[role].kind != kind || !env.validId(a.slots[role].id) then (a, None)
      else
        var (b, rest, secret) := Obtain(env, a, a.slots[role], imported, d.secret, left);
        if secret.None? then (b, None) else Bind(env, b, role, secret.value, imported, rest)
  }

  // ---- What every call keeps ----

  /** A recorded public key is that of the secret in the keyring. */
  ghost predicate SlotSound(env: Env, s: State, role: string)
    requires role in s.slots
  {
    var slot := s.slots[role];
    slot.publicKey.Some? ==>
          env.validId(slot.id) && slot.id in s.keyring
          && env.publicOf(slot.kind, s.keyring[slot.id]) == slot.publicKey
  }

  ghost predicate SlotsSound(env: Env, s: State) {
    forall role {:trigger SlotSound(env, s, role)} | role in s.slots :: SlotSound(env, s, role)
  }

  ghost predicate Referenced(s: State, id: string) {
    exists role :: role in s.slots && s.slots[role].id == id
  }

  /** No id is created twice, what was created is there, and some slot refers to it. */
  ghost predicate CreatedOnce(s: State) {
    && (forall i, j | 0 <= i < j < |s.created| :: s.created[i] != s.created[j])
    && (forall i | 0 <= i < |s.created| :: s.created[i] in s.keyring && Referenced(s, s.created[i]))
  }

  ghost predicate Inv(env: Env, s: State) {
    SlotsSound(env, s) && CreatedOnce(s)
  }

  ghost predicate SlotStays(s: State, t: State, role: string)
    requires role in s.slots
  {
    && role in t.slots && t.slots[role].id == s.slots[role].id && t.slots[role].kind == s.slots[role].kind
    && (s.slots[role].publicKey.Some? ==> t.slots[role].publicKey == s.slots[role].publicKey)
  }

  /** What was once saved, created or recorded stays as it is. */
  ghost predicate Evolves(s: State, t: State) {
    && (forall role {:trigger SlotStays(s, t, role)} | role in s.slots :: SlotStays(s, t, role))
    && (forall id | id in s.keyring :: id in t.keyring && t.keyring[id] == s.keyring[id])
    && s.created <= t.created
  }

  lemma EvolvesTransitive(s: State, t: State, u: State)
    requires Evolves(s, t) && Evolves(t, u)
    ensures Evolves(s, u)
  {
    forall role | role in s.slots ensures SlotStays(s, u, role) {
      assert SlotStays(s, t, role) && SlotStays(t, u, role);
    }
  }

  lemma ReserveKeeps(env: Env, s: State, role: string, kind: Kind, id: string, budget: nat)
    requires Inv(env, s)
    ensures var (t, _, ok) := Reserve(s, role, kind, id, budget);
           Inv(env, t) && Evolves(s, t)
           && (ok ==> role in t.slots)
  {
    var t := Reserve(s, role, kind, id, budget).0;
    forall r | r in t.slots ensures SlotSound(env, t, r) {
      assert r in s.slots ==> SlotSound(env, s, r);
    }
    forall i | 0 <= i < |t.created| ensures Referenced(t, t.created[i]) {
      assert Referenced(s, s.created[i]);
      var r :| r in s.slots && s.slots[r].id == s.created[i];
      assert t.slots[r].id == t.created[i];
    }
  }

  lemma ObtainKeeps(env: Env, s: State, role: string, imported: Option<string>, generated: string, budget: nat)
    requires Inv(env, s) && role in s.slots
    ensures var (t, _, secret) := Obtain(env, s, s.slots[role], imported, generated, budget);
            && Inv(env, t) && Evolves(s, t) && t.slots == s.slots
            && (secret.Some? ==> t.slots[role].id in t.keyring && t.keyring[t.slots[role].id] == secret.value)
  {
    var t := Obtain(env, s, s.slots[role], imported, generated, budget).0;
    forall r | r in t.slots ensures SlotSound(env, t, r) {
      assert SlotSound(env, s, r);
    }
    forall i | 0 <= i < |t.created| ensures Referenced(t, t.created[i]) {
      if i < |s.created| {
        assert Referenced(s, s.created[i]);
      } else {
        assert t.slots[role].id == t.created[i];
      }
    }
  }

  lemma BindKeeps(env: Env, s: State, role: string, secret: string, imported: Option<string>, budget: nat)
    requires Inv(env, s) && role in s.slots && env.validId(s.slots[role].id)
    requires s.slots[role].id in s.keyring && s.keyring[s.slots[role].id] == secret
    ensures var (t, r) := Bind(env, s, role, secret, imported, budget);
            && Inv(env, t) && Evolves(s, t)
            && (r.Some? ==> t.slots[role] == Slot(r.value.id, r.value.kind, Some(r.value.publicKey)))
  {
    var t := Bind(env, s, role, secret, imported, budget).0;
    forall r | r in t.slots ensures SlotSound(env, t, r) {
      assert SlotSound(env, s, r);
    }
    forall i | 0 <= i < |t.created| ensures Referenced(t, t.created[i]) {
      assert Referenced(s, s.created[i]);
      var r :| r in s.slots && s.slots[r].id == s.created[i];
      assert t.slots[r].id == t.created[i];
    }
  }

  lemma EnsureKeeps(env: Env, s: State, role: string, kind: Kind, imported: Option<string>, d: Draw, budget: nat)
    requires Inv(env, s)
    ensures var (t, r) := Ensure(env, s, role, kind, imported, d, budget);
            && Inv(env, t) && Evolves(s, t)
            && (r.Some? ==>
                 role in t.slots && t.slots[role] == Slot(r.value.id, r.value.kind, Some(r.value.publicKey))
                 && r.value.kind == kind)
  {
    if role != "" && |role| <= ROLE_LIMIT {
      ReserveKeeps(env, s, role, kind, d.id, budget);
      var (a, left, reserved) := Reserve(s, role, kind, d.id, budget);
      if reserved && a.slots[role].kind == kind && env.validId(a.slots[role].id) {
        ObtainKeeps(env, a, role, imported, d.secret, left);
        var (b, rest, secret) := Obtain(env, a, a.slots[role], imported, d.secret, left);
        EvolvesTransitive(s, a, b);
        if secret.Some? {
          BindKeeps(env, b, role, secret.value, imported, rest);
          EvolvesTransitive(s, b, Bind(env, b, role, secret.value, imported, rest).0);
        }
      }
    }
  }

  // ---- Runs of calls, each cut off anywhere ----

  datatype Call = Call(role: string, kind: Kind, imported: Option<string>, d: Draw, budget: nat)

  function After(env: Env, s: State, c: Call): State {
    Ensure(env, s, c.role, c.kind, c.imported, c.d, c.budget).0
  }

  function Result(env: Env, s: State, c: Call): Option<SecretRef> {
    Ensure(env, s, c.role, c.kind, c.imported, c.d, c.budget).1
  }

  function Run(env: Env, s: State, calls: seq<Call>): State
    decreases |calls|
  {
    if calls == [] then s else Run(env, After(env, s, calls[0]), calls[1..])
  }

  lemma {:induction false} RunKeeps(env: Env, s: State, calls: seq<Call>)
    requires Inv(env, s)
    ensures Inv(env, Run(env, s, calls)) && Evolves(s, Run(env, s, calls))
    decreases |calls|
  {
    if calls == [] {
      forall role | role in s.slots ensures SlotStays(s, s, role) {}
    } else {
      var c := calls[0];
      EnsureKeeps(env, s, c.role, c.kind, c.imported, c.d, c.budget);
      RunKeeps(env, After(env, s, c), calls[1..]);
      EvolvesTransitive(s, After(env, s, c), Run(env, s, calls));
    }
  }

  /** A fresh vault over a keyring that may hold other items. */
  function Start(keyring: map<string, string>): State {
    State(map[], keyring, [])
  }

  /**
   * Whatever is cut off where: a saved id, kind and recorded key never change, no id is created twice, and
   * no created secret is lost sight of.
   */
  lemma ProvisioningIsCrashSafe(env: Env, keyring: map<string, string>, calls: seq<Call>, more: seq<Call>)
    ensures var s := Run(env, Start(keyring), calls);
            && CreatedOnce(s) && Evolves(s, Run(env, s, more))
  {
    RunKeeps(env, Start(keyring), calls);
    RunKeeps(env, Run(env, Start(keyring), calls), more);
  }

  /** All successful calls for a role return the same reference, however many are cut off between them. */
  lemma SameReference(env: Env, keyring: map<string, string>, before: seq<Call>, a: Call, between: seq<Call>, b: Call)
    requires a.role == b.role
    ensures var s := Run(env, Start(keyring), before);
            var t := Run(env, After(env, s, a), between);
            Result(env, s, a).Some? && Result(env, t, b).Some? ==> Result(env, s, a) == Result(env, t, b)
  {
    var s := Run(env, Start(keyring), before);
    RunKeeps(env, Start(keyring), before);
    EnsureKeeps(env, s, a.role, a.kind, a.imported, a.d, a.budget);
    var mid := After(env, s, a);
    RunKeeps(env, mid, between);
    var t := Run(env, mid, between);
    EnsureKeeps(env, t, b.role, b.kind, b.imported, b.d, b.budget);
    if Result(env, s, a).Some? && Result(env, t, b).Some? {
      assert SlotStays(mid, t, a.role);
      assert SlotStays(t, After(env, t, b), a.role);
    }
  }

  /** And what it refers to can be read for ever, always with the same bytes. */
  lemma ReferenceReads(env: Env, keyring: map<string, string>, before: seq<Call>, a: Call, more: seq<Call>)
    ensures var s := Run(env, Start(keyring), before);
            var r, mid := Result(env, s, a), After(env, s, a);
            r.Some? ==>
                  ReadWith(env, mid, r.value).Some? && ReadWith(env, Run(env, mid, more), r.value)
                  == ReadWith(env, mid, r.value)
  {
    var s := Run(env, Start(keyring), before);
    RunKeeps(env, Start(keyring), before);
    EnsureKeeps(env, s, a.role, a.kind, a.imported, a.d, a.budget);
    var mid := After(env, s, a);
    RunKeeps(env, mid, more);
    if Result(env, s, a).Some? {
      assert SlotSound(env, mid, a.role);
    }
  }

  /**
   * A cut-off call can be repeated: an uncut generated call succeeds unless the role has another kind or its
   * recorded secret is gone.
   */
  lemma RetrySucceeds(env: Env, s: State, role: string, kind: Kind, d: Draw, budget: nat)
    requires Inv(env, s) && 0 < |role| <= ROLE_LIMIT && budget >= 4 && env.validId(d.id)
    requires env.publicOf(kind, d.secret).Some?
    requires role in s.slots ==> env.validId(s.slots[role].id)
    requires (if role in s.slots then s.slots[role].id else d.id) in s.keyring ==>
             env.publicOf(kind, s.keyring[if role in s.slots then s.slots[role].id else d.id]).Some?
    ensures Ensure(env, s, role, kind, None, d, budget).1.Some? <==> (role in s.slots ==> s.slots[role].kind == kind)
  {
    if role in s.slots {
      assert SlotSound(env, s, role);
    }
  }

  // ---- The store ----

  class VaultStore {
    const env: Env
    var s: State

    constructor (env: Env, keyring: map<string, string>)
      ensures this.env == env && s == Start(keyring) && Inv(env, s)
    {
      this.env := env;
      s := Start(keyring);
    }

    /** One call, statement by statement; every `left == 0` is a place where it may end. */
    method Provision(role: string, kind: Kind, imported: Option<string>, d: Draw, budget: nat)
      returns (r: Option<SecretRef>)
      requires Inv(env, s)
      modifies this`s
      ensures Inv(env, s) && Evolves(old(s), s)
      ensures (s, r) == Ensure(env, old(s), role, kind, imported, d, budget)
    {
      hide Inv;
      hide Evolves;
      EnsureKeeps(env, s, role, kind, imported, d, budget);
      if role == "" || |role| > ROLE_LIMIT {
        return None;
      }
      var left := budget;
      if role !in s.slots {
        if left == 0 {
          return None;
        }
        s := s.(slots := s.slots[role := Slot(d.id, kind, None)]);
        left := left - 1;
      }
      var slot := s.slots[role];
      if slot.kind != kind || !env.validId(slot.id) {
        return None;
      }
      var secret := "";
      if slot.id in s.keyring {
        secret := s.keyring[slot.id];
      } else {
        if slot.publicKey.Some? {
          return None;
        }
        secret := if imported.Some? then imported.value else d.secret;
        if env.publicOf(kind, secret).None? || left == 0 {
          return None;
        }
        s := s.(keyring := s.keyring[slot.id := secret], created := s.created + [slot.id]);
        left := left - 1;
      }
      var public := env.publicOf(kind, secret);
      if public.None? || (slot.publicKey.Some? && slot.publicKey != public) {
        return None;
      }
      if imported.Some? && env.publicOf(kind, imported.value) != public {
        return None;
      }
      if left == 0 {
        return None;
      }
      s := s.(slots := s.slots[role := slot.(publicKey := public)]);
      return if left > 1 then Some(SecretRef(slot.id, kind, public.value)) else None;
    }
  }
}
