/**
 * The methods of `AuthRegistry`, statement by statement. `db` holds the rows the open transaction
 * sees; a refused transaction puts the committed rows back.
 */
module RegistryStore {
  import opened Prelude
  import opened Wire
  import opened Registry
  import opened RegistryRuns

  class AuthRegistry {
    const env: Env
    var db: Tables

    ghost predicate Valid()
      reads this
    {
      Inv(env, db) && WithinLimits(env, db)
    }

    constructor (env: Env)
      ensures Valid() && this.env == env && db == EMPTY_TABLES
    {
      this.env := env;
      db := EMPTY_TABLES;
      new;
      StartHolds(env);
    }

    method IssueToken(handle: string, ttl: int, newUser: string, secret: string, now: int, storage: bool)
      returns (ok: bool)
      requires Valid()
      modifies this`db
      ensures Valid()
      ensures (db, ok) == Invite(env, old(db), handle, ttl, newUser, secret, now, storage)
    {
      InviteStep(env, db, handle, ttl, newUser, secret, now, storage);
      if !ValidId(handle) || !(1 <= ttl <= 3600) {
        return false;
      }
      var committed := db;
      if handle !in db.bindings {
        if newUser in db.users {
          return false;
        }
        db := db.(users := db.users[newUser := true]);
        db := db.(bindings := db.bindings[handle := newUser]);
      }
      var user := db.bindings[handle];
      var digest := env.digest(Credential(user, secret));
      if !Enabled(db, user) || digest in db.tokens || !storage {
        db := committed;
        return false;
      }
      db := db.(tokens := db.tokens[digest := Token(user, now + ttl, None)]);
      if !WithinLimits(env, db) {
        db := committed;
        return false;
      }
      return true;
    }

    method EnrollDevice(token: Option<Credential>, r: Registration, now: int, storage: bool) returns (ok: bool)
      requires Valid()
      modifies this`db
      ensures Valid()
      ensures (db, ok) == Enroll(env, old(db), token, r, now, storage)
    {
      EnrollStep(env, db, token, r, now, storage);
      EnrollBounded(env, db, token, r, now, storage);
      ok := EnrollRows(token, r, now, storage);
    }

    method EnrollRows(token: Option<Credential>, r: Registration, now: int, storage: bool) returns (ok: bool)
      modifies this`db
      ensures (db, ok) == Enroll(env, old(db), token, r, now, storage)
    {
      if !ValidRegistration(env.p, r) || !env.packageValid(r) || token.None? || r.payload.userId != token.value.user
         || Encode(env.p.registrations, r).None? || !storage {
        return false;
      }
      var key, digest := r.payload.natsKey, env.digest(token.value);
      if digest in db.tokens && db.tokens[digest].usedKey.Some? {
        return db.tokens[digest].usedKey == Some(key) && key in db.devices && !db.devices[key].revoked
               && Enabled(db, db.devices[key].user) && db.devices[key].registration == r;
      }
      if !Authenticates(db, token.value, digest, now) {
        return false;
      }
      var committed := db;
      db := db.(tokens := db.tokens[digest := db.tokens[digest].(usedKey := Some(key))]);
      if key in db.devices || NameTaken(db, r.payload.userId, r.payload.deviceId) {
        db := committed;
        return false;
      }
      db := db.(devices := db.devices[key := Device(r.payload.userId, r.payload.deviceId, r, false, false, 1)]);
      if !WithinLimits(env, db) {
        db := committed;
        return false;
      }
      return true;
    }

    method ActivateDevice(key: string, storage: bool) returns (ok: bool)
      requires Valid()
      modifies this`db
      ensures Valid()
      ensures (db, ok) == Activate(old(db), key, storage)
    {
      ActivateValid(env, db, key, storage);
      if key !in db.devices || db.devices[key].revoked || !storage {
        return false;
      }
      MarkReady(key);
      return true;
    }

    method MarkReady(key: string)
      requires key in db.devices
      modifies this`db
      ensures db == old(db).(devices := old(db).devices[key := old(db).devices[key].(ready := true)])
    {
      if !db.devices[key].ready {
        db := db.(devices := db.devices[key := db.devices[key].(ready := true)]);
      } else {
        assert db.devices == db.devices[key := db.devices[key]];
      }
    }

    /** `SELECT nkey ... WHERE gid=? ORDER BY leaf LIMIT 1`, or the empty string. */
    method LeastMember(gid: string) returns (nkey: string)
      requires LeavesUnique(db.members) && forall e | e in db.members :: e.1 != ""
      ensures nkey == Successor(db.members, gid)
    {
      nkey := "";
      var todo := set e | e in db.members && e.0 == gid;
      ghost var all := todo;
      while todo != {}
        invariant todo <= all
        invariant all - todo == {} ==> nkey == ""
        invariant all - todo != {} ==> (gid, nkey) in all - todo && forall e | e in all - todo ::
                  db.members[(gid, nkey)] <= db.members[e]
        decreases todo
      {
        var e :| e in todo;
        todo := todo - {e};
        if nkey == "" || db.members[e] < db.members[(gid, nkey)] {
          nkey := e.1;
        }
        assert all - todo == (all - (todo + {e})) + {e};
      }
      assert all - todo == all;
      if all == {} {
        forall e | e in db.members ensures e.0 != gid { assert e !in all; }
      }
      LeastIsSuccessor(db.members, gid, nkey);
    }

    /** `revoke`: five statements and the search for successors. */
    method RevokeDevice(key: string, storage: bool) returns (ok: bool)
      requires Valid()
      modifies this`db
      ensures Valid()
      ensures (db, ok) == Revoke(old(db), key, storage)
    {
      RevokeValid(env, db, key, storage);
      NoEmptyKeys(env, db);
      if key !in db.devices || db.devices[key].revoked {
        return storage;
      }
      if !storage {
        return false;
      }
      RevokeRows(key);
      return true;
    }

    method RevokeRows(key: string)
      requires key in db.devices && !db.devices[key].revoked && key != ""
      requires LeavesUnique(db.members) && forall e | e in db.members :: e.1 != ""
      modifies this`db
      ensures db == Revoked(old(db), key)
    {
      var before := db;
      db := db.(devices := SharersBumped(db, key));
      db := db.(groups := GroupsBumped(db, key));
      db := db.(members := WithoutDevice(db.members, key));
      HandOver(key);
      var row := db.devices[key];
        db := db.(devices := db.devices[key := row.(revoked := true, generation := row.generation + 1)]);
      DevicesInSteps(before, key);
      GroupsInSteps(before, key);
    }

    /** Groups led by `key` pass to their remaining member with the least leaf. */
    method HandOver(key: string)
      requires LeavesUnique(db.members) && key != "" && forall e | e in db.members :: e.1 != "" && e.1 != key
      modifies this`db
      ensures db == old(db).(groups := db.groups)
      ensures db.groups == HandedOver(old(db).groups, key, old(db).members)
    {
      var todo := set g | g in db.groups && db.groups[g].coordinator == key;
      ghost var all := todo;
      while todo != {}
        invariant todo <= all
        invariant db == old(db).(groups := db.groups)
        invariant db.groups == map g | g in old(db).groups ::
                    if g in all - todo then old(db).groups[g].(coordinator := Successor(old(db).members, g))
                        else old(db).groups[g]
        decreases todo
      {
        var g :| g in todo;
        var next := LeastMember(g);
        db := db.(groups := db.groups[g := db.groups[g].(coordinator := next)]);
        todo := todo - {g};
      }
    }

    method CheckMembers(members: seq<Member>) returns (ok: bool)
      ensures ok <==> MembersAllowed(env, db, members)
    {
      var keys: set<string> := {};
      for i := 0 to |members|
        invariant keys == set j | 0 <= j < i :: members[j].nkey
        invariant forall j, k | 0 <= j < k < i ::
                   members[j].nkey != members[k].nkey
                   && members[j].leaf < members[k].leaf
        invariant forall j | 0 <= j < i :: Authorized(env, db, members[j].nkey)
      {
        var m := members[i];
        if m.nkey in keys || (i > 0 && members[i - 1].leaf >= m.leaf) || !Authorized(env, db, m.nkey) {
          return false;
        }
        keys := keys + {m.nkey};
      }
      return true;
    }

    /** `apply_policy`: bump the old members, replace the group row, delete and insert the edges. */
    method ChangePolicy(s: SignedPolicy, rate: bool, storage: bool) returns (generation: Option<nat>)
      requires Valid()
      modifies this`db
      ensures Valid()
      ensures (db, generation) == ApplyPolicy(env, old(db), s, rate, storage)
    {
      PolicyValid(env, db, s, rate, storage);
      var u := s.update;
      if !WellFormedPolicy(env, s) || !Authorized(env, db, u.signer) || !rate || !storage {
        return None;
      }
      var allowed := CheckMembers(u.members);
      if !allowed {
        return None;
      }
      if IsRetry(db, u) {
        return Some(u.expectedGeneration + 1);
      }
      if !IsCurrent(db, u) || !InPolicy(u.members, u.signer) {
        return None;
      }
      var committed := db;
      ReplaceMembers(u);
      if !WithinLimits(env, db) {
        db := committed;
        return None;
      }
      return Some(u.expectedGeneration + 1);
    }

    method ReplaceMembers(u: PolicyUpdate)
      requires Ordered(u.members) && forall i | 0 <= i < |u.members| :: u.members[i].nkey in db.devices
      modifies this`db
      ensures db == Applied(old(db), u)
    {
      ghost var before := db;
      db := db.(devices := MembersBumped(db, u.gid));
      db := db.(groups := db.groups[u.gid := Group(u.expectedGeneration + 1, u.epoch, u.signer, Some(u))]);
      db := db.(members := WithoutGroup(db.members, u.gid));
      InsertMembers(u.gid, u.members);
      AppliedInSteps(before, u);
    }

    /** One edge and one device generation per listed member. */
    method InsertMembers(gid: string, list: seq<Member>)
      requires Ordered(list) && forall i | 0 <= i < |list| :: list[i].nkey in db.devices
      modifies this`db
      ensures db == old(db).(devices := Listed(old(db).devices, list), members := Placed(old(db).members, gid, list))
    {
      ghost var start := db;
      ListedNone(db.devices, list);
      for i := 0 to |list|
        invariant db == start.(devices := db.devices, members := db.members)
        invariant db.members == Placed(start.members, gid, list[..i])
        invariant db.devices == Listed(start.devices, list[..i])
      {
        ListedInSteps(start.devices, list, i);
        PlacedInSteps(start.members, gid, list, i);
        var key, leaf := list[i].nkey, list[i].leaf;
        db := db.(members := db.members[(gid, key) := leaf]);
        db := db.(devices := db.devices[key := db.devices[key].(generation := db.devices[key].generation + 1)]);
      }
      assert list[..|list|] == list;
    }
  }

  lemma LeastIsSuccessor(members: map<Edge, nat>, gid: string, nkey: string)
    requires LeavesUnique(members)
    requires IsSuccessor(members, gid, nkey) || (nkey == "" && forall e | e in members :: e.0 != gid)
    ensures nkey == Successor(members, gid)
  {
    if IsSuccessor(members, gid, nkey) {
      var other := Successor(members, gid);
      assert IsSuccessor(members, gid, other);
      assert members[(gid, other)] == members[(gid, nkey)];
    }
  }

  /** `UPDATE devices ... WHERE nkey IN` the members of the groups of `key`. */
  function SharersBumped(t: Tables, key: string): map<string, Device> {
    map k | k in t.devices ::
      if Shares(t, key, k) then t.devices[k].(generation := t.devices[k].generation + 1) else t.devices[k]
  }

  /** `UPDATE authorization_groups SET generation=generation+1, last_update=X''`. */
  function GroupsBumped(t: Tables, key: string): map<string, Group> {
    map g | g in t.groups ::
      if (g, key) in t.members then t.groups[g].(generation := t.groups[g].generation + 1, lastUpdate := None)
          else t.groups[g]
  }

  /** `UPDATE authorization_groups SET coordinator=COALESCE(...) WHERE coordinator=` the revoked key. */
  ghost function HandedOver(groups: map<string, Group>, key: string, members: map<Edge, nat>): map<string, Group> {
    map g | g in groups ::
      if groups[g].coordinator == key then groups[g].(coordinator := Successor(members, g)) else groups[g]
  }

  lemma DevicesInSteps(t: Tables, key: string)
    requires key in t.devices && !t.devices[key].revoked
    ensures var d := SharersBumped(t, key);
            d[key := d[key].(revoked := true, generation := d[key].generation + 1)] == Revoked(t, key).devices
  {}

  lemma GroupsInSteps(t: Tables, key: string)
    ensures HandedOver(GroupsBumped(t, key), key, WithoutDevice(t.members, key)) == Revoked(t, key).groups
  {}

  /** `UPDATE devices ... WHERE nkey IN` the members of the group. */
  function MembersBumped(t: Tables, gid: string): map<string, Device> {
    map k | k in t.devices ::
      if (gid, k) in t.members then t.devices[k].(generation := t.devices[k].generation + 1) else t.devices[k]
  }

  function Listed(devices: map<string, Device>, list: seq<Member>): map<string, Device> {
    map k | k in devices ::
      if InPolicy(list, k) then devices[k].(generation := devices[k].generation + 1) else devices[k]
  }

  lemma ListedNone(devices: map<string, Device>, list: seq<Member>)
    ensures Listed(devices, list[..0]) == devices
  {
    assert list[..0] == [];
  }

  lemma PlacedInSteps(members: map<Edge, nat>, gid: string, list: seq<Member>, i: nat)
    requires i < |list|
    ensures Placed(members, gid, list[..i + 1]) == Placed(members, gid, list[..i])[(gid, list[i].nkey) := list[i].leaf]
  {
    assert list[..i + 1][..i] == list[..i];
  }

  lemma ListedInSteps(devices: map<string, Device>, list: seq<Member>, i: nat)
    requires Ordered(list) && i < |list| && list[i].nkey in devices
    ensures var d, k := Listed(devices, list[..i]), list[i].nkey;
            d[k := d[k].(generation := d[k].generation + 1)] == Listed(devices, list[..i + 1])
  {
    InsertedInPolicy(list, i);
  }

  lemma AppliedInSteps(t: Tables, u: PolicyUpdate)
    ensures Listed(MembersBumped(t, u.gid), u.members) == Applied(t, u).devices
  {}

  lemma EnrollBounded(env: Env, t: Tables, token: Option<Credential>, r: Registration, now: int, storage: bool)
    requires WithinLimits(env, t)
    ensures WithinLimits(env, Enroll(env, t, token, r, now, storage).0)
  {}

  lemma ActivateValid(env: Env, t: Tables, key: string, storage: bool)
    requires Inv(env, t) && WithinLimits(env, t)
    ensures var t' := Activate(t, key, storage).0; Inv(env, t') && WithinLimits(env, t')
  {
    ActivateStep(env, t, key, storage);
    StepBounded(env, t, ActivateOp(key, storage));
  }

  lemma RevokeValid(env: Env, t: Tables, key: string, storage: bool)
    requires Inv(env, t) && WithinLimits(env, t)
    ensures var t' := Revoke(t, key, storage).0; Inv(env, t') && WithinLimits(env, t')
  {
    RevokeStep(env, t, key, storage);
    RevokeBounded(env, t, key, storage);
  }

  lemma RevokeBounded(env: Env, t: Tables, key: string, storage: bool)
    requires WithinLimits(env, t)
    ensures WithinLimits(env, Revoke(t, key, storage).0)
  {
    StepBounded(env, t, RevokeOp(key, storage));
  }

  lemma NoEmptyKeys(env: Env, t: Tables)
    requires Inv(env, t)
    ensures LeavesUnique(t.members) && forall e | e in t.members :: e.1 != ""
    ensures forall k | k in t.devices :: k != ""
  {
    KeysNamed(env, t);
    forall k | k in t.devices ensures k != "" {
      assert DeviceSound(env, t, k);
    }
  }

  lemma PolicyValid(env: Env, t: Tables, s: SignedPolicy, rate: bool, storage: bool)
    requires Inv(env, t) && WithinLimits(env, t)
    ensures var t' := ApplyPolicy(env, t, s, rate, storage).0; Inv(env, t') && WithinLimits(env, t')
  {
    PolicyStep(env, t, s, rate, storage);
    StepBounded(env, t, PolicyOp(s, rate, storage));
  }

  lemma InsertedInPolicy(list: seq<Member>, i: nat)
    requires Ordered(list) && i < |list|
    ensures !InPolicy(list[..i], list[i].nkey)
    ensures forall k :: InPolicy(list[..i + 1], k) <==> InPolicy(list[..i], k) || k == list[i].nkey
  {
    forall k ensures InPolicy(list[..i + 1], k) <==> InPolicy(list[..i], k) || k == list[i].nkey {
      if InPolicy(list[..i], k) {
        var j :| 0 <= j < i && list[..i][j].nkey == k;
        assert list[..i + 1][j].nkey == k;
      }
      if k == list[i].nkey {
        assert list[..i + 1][i].nkey == k;
      }
      if InPolicy(list[..i + 1], k) && k != list[i].nkey {
        var j :| 0 <= j < i + 1 && list[..i + 1][j].nkey == k;
        assert list[..i][j].nkey == k;
      }
    }
  }
}
