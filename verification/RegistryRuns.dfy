/**
 * What every reachable registry state satisfies, and how any later state of a run relates to it:
 * generations are true versions, tokens and devices are in bijection, revocation is for ever.
 */
module RegistryRuns {
  import opened Prelude
  import opened Wire
  import opened Registry

  // ---- The invariant ----

  /** A device row repeats its signed registration and belongs to a known user. */
  ghost predicate DeviceSound(env: Env, t: Tables, k: string)
    requires k in t.devices
  {
    t.devices[k].user in t.users && BindingMatches(env, t.devices[k], k)
  }

  ghost predicate RowsRefer(env: Env, t: Tables) {
    && (forall h | h in t.bindings :: t.bindings[h] in t.users)
    && (forall d | d in t.tokens :: t.tokens[d].user in t.users)
    && (forall k {:trigger DeviceSound(env, t, k)} | k in t.devices :: DeviceSound(env, t, k))
  }

  ghost predicate NamesUnique(t: Tables) {
    forall k, k' | k in t.devices && k' in t.devices && t.devices[k].user == t.devices[k'].user
        && t.devices[k].device == t.devices[k'].device :: k == k'
  }

  /** Each group member is an existing, ready, non-revoked device of an enabled user. */
  ghost predicate MembersAdmitted(env: Env, t: Tables) {
    forall e | e in t.members :: e.0 in t.groups && Authorized(env, t, e.1)
  }

  ghost predicate LeavesUnique(members: map<Edge, nat>) {
    forall e, f | e in members && f in members && e.0 == f.0 && members[e] == members[f] :: e == f
  }

  ghost predicate Emptied(t: Tables, gid: string) {
    forall e | e in t.members :: e.0 != gid
  }

  /** The coordinator is a member, or is empty exactly when the group has no members. */
  ghost predicate Led(t: Tables, g: string)
    requires g in t.groups
  {
    && (t.groups[g].coordinator == "" <==> Emptied(t, g))
    && (t.groups[g].coordinator != "" ==> (g, t.groups[g].coordinator) in t.members)
  }

  ghost predicate Coordinated(t: Tables) {
    forall g {:trigger Led(t, g)} | g in t.groups :: Led(t, g)
  }

  ghost predicate HasToken(t: Tables, k: string) {
    exists d :: d in t.tokens && t.tokens[d].usedKey == Some(k)
  }

  /** Consumed tokens and devices are in bijection, with matching users. */
  ghost predicate TokensMatchDevices(t: Tables) {
    && (forall d | d in t.tokens && t.tokens[d].usedKey.Some? ::
          t.tokens[d].usedKey.value in t.devices && t.devices[t.tokens[d].usedKey.value].user == t.tokens[d].user)
    && (forall d, d' | d in t.tokens && d' in t.tokens && t.tokens[d].usedKey.Some?
       && t.tokens[d].usedKey == t.tokens[d'].usedKey :: d == d')
    && (forall k {:trigger HasToken(t, k)} | k in t.devices :: HasToken(t, k))
  }

  ghost predicate Inv(env: Env, t: Tables) {
    && RowsRefer(env, t)
    && NamesUnique(t)
    && MembersAdmitted(env, t)
    && LeavesUnique(t.members)
    && Coordinated(t)
    && TokensMatchDevices(t)
  }

  // ---- How states of one run relate ----

  ghost predicate SameMembership(t: Tables, t': Tables, k: string) {
    forall g: string :: ((g, k) in t.members <==> (g, k) in t'.members)
                     && ((g, k) in t.members ==> t.members[(g, k)] == t'.members[(g, k)])
  }

  ghost predicate SameGroup(t: Tables, t': Tables, g: string)
    requires g in t.groups && g in t'.groups
  {
    && t'.groups[g] == t.groups[g]
    && forall k: string :: ((g, k) in t.members <==> (g, k) in t'.members)
                        && ((g, k) in t.members ==> t.members[(g, k)] == t'.members[(g, k)])
  }

  ghost predicate GroupsEvolve(t: Tables, t': Tables) {
    forall g | g in t.groups ::
      && g in t'.groups
      && t.groups[g].generation <= t'.groups[g].generation
      && (t.groups[g].generation == t'.groups[g].generation ==> SameGroup(t, t', g))
  }

  ghost predicate DevicesEvolve(t: Tables, t': Tables) {
    forall k | k in t.devices ::
      && k in t'.devices
      && var d, d' := t.devices[k], t'.devices[k];
         && d'.user == d.user && d'.device == d.device && d'.registration == d.registration
         && (d.ready ==> d'.ready) && (d.revoked ==> d'.revoked)
         && d.generation <= d'.generation
         && (d.generation == d'.generation ==> d'.revoked == d.revoked && SameMembership(t, t', k))
  }

  ghost predicate RestEvolves(t: Tables, t': Tables) {
    && (forall u | u in t.users :: u in t'.users && t'.users[u] == t.users[u])
    && (forall h | h in t.bindings :: h in t'.bindings && t'.bindings[h] == t.bindings[h])
    && (forall d | d in t.tokens ::
          && d in t'.tokens && t'.tokens[d].user == t.tokens[d].user && t'.tokens[d].expires == t.tokens[d].expires
          && (t.tokens[d].usedKey.Some? ==> t'.tokens[d].usedKey == t.tokens[d].usedKey))
  }

  /** `t'` is a later state of a run through `t`. */
  ghost predicate Evolves(t: Tables, t': Tables) {
    GroupsEvolve(t, t') && DevicesEvolve(t, t') && RestEvolves(t, t')
  }

  lemma EvolvesReflexive(t: Tables)
    ensures Evolves(t, t)
  {}

  lemma EvolvesTransitive(a: Tables, b: Tables, c: Tables)
    requires Evolves(a, b) && Evolves(b, c)
    ensures Evolves(a, c)
  {}

  // ---- Invitation, enrollment, activation ----

  /** Groups and members stay, and device rows change at most by becoming ready. */
  ghost predicate Quiet(t: Tables, t': Tables) {
    && t'.groups == t.groups && t'.members == t.members
    && (forall k | k in t.devices ::
          && k in t'.devices && t'.devices[k] == t.devices[k].(ready := t'.devices[k].ready)
          && (t.devices[k].ready ==> t'.devices[k].ready))
    && RestEvolves(t, t')
  }

  lemma QuietKeepsMembers(env: Env, t: Tables, t': Tables)
    requires Quiet(t, t') && MembersAdmitted(env, t) && Coordinated(t)
    ensures MembersAdmitted(env, t') && Coordinated(t') && Evolves(t, t')
  {
    forall e | e in t'.members ensures Authorized(env, t', e.1) {
      assert Authorized(env, t, e.1);
    }
    forall g | g in t'.groups ensures Led(t', g) {
      assert Led(t, g);
      assert Emptied(t, g) <==> Emptied(t', g);
    }
  }

  lemma InviteRows(env: Env, t: Tables, handle: string, newUser: string, digest: Digest, expires: int)
    requires RowsRefer(env, t) && digest !in t.tokens
    requires handle !in t.bindings ==> newUser !in t.users
    ensures var u := Invited(t, handle, newUser);
            var t' := WithToken(u, digest, Token(u.bindings[handle], expires, None));
            RowsRefer(env, t') && Quiet(t, t')
  {
    hide RowsRefer, RestEvolves;
    InviteRefers(env, t, handle, newUser, digest, expires);
    InviteRest(t, handle, newUser, digest, Token(Invited(t, handle, newUser).bindings[handle], expires, None));
  }

  lemma InviteRest(t: Tables, handle: string, newUser: string, digest: Digest, token: Token)
    requires digest !in t.tokens && (handle !in t.bindings ==> newUser !in t.users)
    ensures RestEvolves(t, WithToken(Invited(t, handle, newUser), digest, token))
  {}

  lemma InviteRefers(env: Env, t: Tables, handle: string, newUser: string, digest: Digest, expires: int)
    requires RowsRefer(env, t) && (handle !in t.bindings ==> newUser !in t.users)
    ensures var u := Invited(t, handle, newUser);
            RowsRefer(env, WithToken(u, digest, Token(u.bindings[handle], expires, None)))
  {
    hide BindingMatches;
    var u := Invited(t, handle, newUser);
    var t' := WithToken(u, digest, Token(u.bindings[handle], expires, None));
    forall k | k in t'.devices ensures DeviceSound(env, t', k) {
      assert DeviceSound(env, t, k);
    }
  }

  /** Adding an unused token or marking one with the key of a new device keeps the bijection. */
  lemma TokenAdded(t: Tables, t': Tables, digest: Digest)
    requires TokensMatchDevices(t) && digest !in t.tokens
    requires t'.devices == t.devices && digest in t'.tokens && t'.tokens == t.tokens[digest := t'.tokens[digest]]
             && t'.tokens[digest].usedKey.None?
    ensures TokensMatchDevices(t')
  {
    forall k | k in t'.devices ensures HasToken(t', k) {
      assert HasToken(t, k);
      var d :| d in t.tokens && t.tokens[d].usedKey == Some(k);
      assert t'.tokens[d].usedKey == Some(k);
    }
  }

  lemma TokenConsumed(t: Tables, digest: Digest, r: Registration)
    requires TokensMatchDevices(t) && digest in t.tokens && t.tokens[digest].usedKey.None?
             && t.tokens[digest].user == r.payload.userId
    requires r.payload.natsKey !in t.devices
    ensures TokensMatchDevices(Enrolled(t, digest, r))
  {
    var t', key := Enrolled(t, digest, r), r.payload.natsKey;
    forall k | k in t'.devices ensures HasToken(t', k) {
      if k == key {
        assert t'.tokens[digest].usedKey == Some(k);
      } else {
        assert HasToken(t, k);
        var d :| d in t.tokens && t.tokens[d].usedKey == Some(k);
        assert t'.tokens[d].usedKey == Some(k);
      }
    }
  }

  lemma InvitedStep(env: Env, t: Tables, t': Tables, handle: string, newUser: string, digest: Digest, expires: int)
    requires Inv(env, t) && digest !in t.tokens
    requires handle !in t.bindings ==> newUser !in t.users
    requires var u := Invited(t, handle, newUser);
             t' == WithToken(u, digest, Token(u.bindings[handle], expires, None))
    ensures Inv(env, t') && Evolves(t, t')
  {
    InviteRows(env, t, handle, newUser, digest, expires);
    TokenAdded(t, t', digest);
    QuietKeepsMembers(env, t, t');
  }

  lemma InviteStep(env: Env, t: Tables, handle: string, ttl: int, newUser: string, secret: string, now: int,
                   storage: bool)
    requires Inv(env, t)
    ensures var t' := Invite(env, t, handle, ttl, newUser, secret, now, storage).0; Inv(env, t') && Evolves(t, t')
  {
    hide Inv;
    EvolvesReflexive(t);
    var (t', ok) := Invite(env, t, handle, ttl, newUser, secret, now, storage);
    if ok {
      var user := Invited(t, handle, newUser).bindings[handle];
      InvitedStep(env, t, t', handle, newUser, env.digest(Credential(user, secret)), now + ttl);
    }
  }

  lemma EnrollRows(env: Env, t: Tables, digest: Digest, r: Registration)
    requires RowsRefer(env, t) && ValidRegistration(env.p, r) && digest in t.tokens && t.tokens[digest].usedKey.None?
    requires t.tokens[digest].user == r.payload.userId && r.payload.natsKey !in t.devices
    ensures var t' := Enrolled(t, digest, r); RowsRefer(env, t') && Quiet(t, t')
  {
    var t', key := Enrolled(t, digest, r), r.payload.natsKey;
    forall k | k in t'.devices ensures DeviceSound(env, t', k) {
      if k != key {
        assert DeviceSound(env, t, k);
      }
    }
  }

  lemma EnrollStep(env: Env, t: Tables, token: Option<Credential>, r: Registration, now: int, storage: bool)
    requires Inv(env, t)
    ensures var t' := Enroll(env, t, token, r, now, storage).0; Inv(env, t') && Evolves(t, t')
  {
    EvolvesReflexive(t);
    var t' := Enroll(env, t, token, r, now, storage).0;
    if t' != t {
      var digest := env.digest(token.value);
      EnrollRows(env, t, digest, r);
      TokenConsumed(t, digest, r);
      QuietKeepsMembers(env, t, t');
    }
  }

  lemma ActivateRows(env: Env, t: Tables, key: string)
    requires RowsRefer(env, t) && key in t.devices
    ensures var t' := t.(devices := t.devices[key := t.devices[key].(ready := true)]);
            RowsRefer(env, t') && Quiet(t, t')
  {
    var t' := t.(devices := t.devices[key := t.devices[key].(ready := true)]);
    forall k | k in t'.devices ensures DeviceSound(env, t', k) {
      assert DeviceSound(env, t, k);
    }
  }

  lemma SameTokens(t: Tables, t': Tables)
    requires TokensMatchDevices(t) && t'.tokens == t.tokens && t'.devices.Keys == t.devices.Keys
    requires forall k | k in t.devices :: t'.devices[k].user == t.devices[k].user
    ensures TokensMatchDevices(t')
  {
    forall k | k in t'.devices ensures HasToken(t', k) {
      assert HasToken(t, k);
    }
  }

  lemma ActivateCounts(env: Env, t: Tables, key: string)
    requires WithinLimits(env, t) && key in t.devices
    ensures WithinLimits(env, t.(devices := t.devices[key := t.devices[key].(ready := true)]))
  {
    hide ValidRegistration;
    var t' := t.(devices := t.devices[key := t.devices[key].(ready := true)]);
    assert t'.devices.Keys == t.devices.Keys;
    forall u | u in t'.users ensures DevicesOf(t', u) == DevicesOf(t, u) {}
    forall k | k in t'.devices ensures EdgesOf(t', k) == EdgesOf(t, k) {}
  }

  lemma ActivateStep(env: Env, t: Tables, key: string, storage: bool)
    requires Inv(env, t)
    ensures var t' := Activate(t, key, storage).0; Inv(env, t') && Evolves(t, t')
  {
    EvolvesReflexive(t);
    var (t', ok) := Activate(t, key, storage);
    if ok {
      ActivateRows(env, t, key);
      SameTokens(t, t');
      QuietKeepsMembers(env, t, t');
    }
  }

  // ---- Revocation ----

  /** Among finitely many edges of a group one has the least leaf. */
  lemma {:induction false} LeastLeaf(members: map<Edge, nat>, edges: set<Edge>, gid: string)
    requires edges <= members.Keys && edges != {} && forall e | e in edges :: e.0 == gid
    ensures exists e | e in edges :: forall f | f in edges :: members[e] <= members[f]
  {
    var x :| x in edges;
    var others := edges - {x};
    if others == {} {
      assert edges == {x};
    } else {
      LeastLeaf(members, others, gid);
      var y :| y in others && forall f | f in others :: members[y] <= members[f];
      var least := if members[x] <= members[y] then x else y;
      assert least in edges && forall f | f in edges :: members[least] <= members[f];
    }
  }

  /** COALESCE yields a member with the least leaf, or the empty string when nobody is left. */
  lemma SuccessorLeads(members: map<Edge, nat>, gid: string)
    requires forall e | e in members :: e.1 != ""
    ensures Successor(members, gid) == "" <==> forall e | e in members :: e.0 != gid
    ensures Successor(members, gid) != "" ==> IsSuccessor(members, gid, Successor(members, gid))
  {
    var edges := set e | e in members && e.0 == gid;
    if edges != {} {
      LeastLeaf(members, edges, gid);
      var e :| e in edges && forall f | f in edges :: members[e] <= members[f];
      assert IsSuccessor(members, gid, e.1);
      assert (gid, Successor(members, gid)) in members;
      assert (gid, Successor(members, gid)).1 != "";
    } else {
      assert forall e | e in members && e.0 == gid :: e in edges;
      forall k ensures !IsSuccessor(members, gid, k) {
        assert (gid, k) !in edges;
      }
    }
  }

  lemma KeysNamed(env: Env, t: Tables)
    requires MembersAdmitted(env, t)
    ensures forall e | e in t.members :: e.1 != ""
  {
    forall e | e in t.members ensures e.1 != "" {
      assert BindingMatches(env, t.devices[e.1], e.1);
    }
  }

  /** Only generations and revoked flags of device rows differ outside the group tables. */
  ghost predicate Bumps(t: Tables, t': Tables) {
    && t'.users == t.users && t'.bindings == t.bindings && t'.tokens == t.tokens
    && t'.devices.Keys == t.devices.Keys
    && forall k {:trigger t'.devices[k]} | k in t.devices ::
         && t.devices[k].generation <= t'.devices[k].generation
         && t'.devices[k] == t.devices[k].(generation := t'.devices[k].generation, revoked := t'.devices[k].revoked)
  }

  lemma RevokedBumps(t: Tables, key: string)
    ensures Bumps(t, Revoked(t, key))
  {}

  lemma AppliedBumps(t: Tables, u: PolicyUpdate)
    ensures Bumps(t, Applied(t, u))
  {}

  lemma BumpsKeepRows(env: Env, t: Tables, t': Tables)
    requires RowsRefer(env, t) && NamesUnique(t) && TokensMatchDevices(t) && Bumps(t, t')
    ensures RowsRefer(env, t') && NamesUnique(t') && TokensMatchDevices(t') && RestEvolves(t, t')
  {
    forall k | k in t'.devices ensures DeviceSound(env, t', k) {
      assert DeviceSound(env, t, k);
    }
    SameTokens(t, t');
  }

  lemma RevokedMembers(env: Env, t: Tables, key: string)
    requires MembersAdmitted(env, t) && LeavesUnique(t.members)
    ensures var t' := Revoked(t, key); MembersAdmitted(env, t') && LeavesUnique(t'.members)
  {
    var t' := Revoked(t, key);
    forall e | e in t'.members ensures Authorized(env, t', e.1) {
      assert Authorized(env, t, e.1);
    }
  }

  lemma RevokedLed(env: Env, t: Tables, key: string)
    requires MembersAdmitted(env, t) && Coordinated(t) && key != ""
    ensures Coordinated(Revoked(t, key))
  {
    var t' := Revoked(t, key);
    KeysNamed(env, t);
    forall g | g in t'.groups ensures Led(t', g) {
      assert Led(t, g);
      SuccessorLeads(t'.members, g);
    }
  }

  lemma RevokedGroupsEvolve(t: Tables, key: string)
    requires Coordinated(t) && key != ""
    ensures GroupsEvolve(t, Revoked(t, key))
  {
    var t' := Revoked(t, key);
    forall g | g in t.groups && t.groups[g].generation == t'.groups[g].generation ensures SameGroup(t, t', g) {
      assert Led(t, g);
    }
  }

  lemma RevokedDevicesEvolve(t: Tables, key: string)
    requires key in t.devices
    ensures DevicesEvolve(t, Revoked(t, key))
  {}

  lemma RevokedCounts(env: Env, t: Tables, key: string)
    requires WithinLimits(env, t)
    ensures WithinLimits(env, Revoked(t, key))
  {
    var t' := Revoked(t, key);
    assert t'.devices.Keys == t.devices.Keys && t'.groups.Keys == t.groups.Keys;
    SubsetSize(t'.members.Keys, t.members.Keys);
    forall u | u in t'.users ensures |DevicesOf(t', u)| <= |DevicesOf(t, u)| {
      SubsetSize(DevicesOf(t', u), DevicesOf(t, u));
    }
    forall k | k in t'.devices ensures |EdgesOf(t', k)| <= |EdgesOf(t, k)| {
      SubsetSize(EdgesOf(t', k), EdgesOf(t, k));
    }
  }

  lemma RevokeStep(env: Env, t: Tables, key: string, storage: bool)
    requires Inv(env, t)
    ensures var t' := Revoke(t, key, storage).0; Inv(env, t') && Evolves(t, t')
  {
    EvolvesReflexive(t);
    var t' := Revoke(t, key, storage).0;
    if t' != t {
      assert DeviceSound(env, t, key);
      RevokedBumps(t, key);
      BumpsKeepRows(env, t, t');
      RevokedMembers(env, t, key);
      RevokedLed(env, t, key);
      RevokedGroupsEvolve(t, key);
      RevokedDevicesEvolve(t, key);
    }
  }

  // ---- Group policy ----

  lemma InPolicyLast(list: seq<Member>, k: string)
    requires list != []
    ensures InPolicy(list, k) <==> InPolicy(list[..|list| - 1], k) || k == list[|list| - 1].nkey
  {
    var init, last := list[..|list| - 1], list[|list| - 1];
    if InPolicy(init, k) {
      var i :| 0 <= i < |init| && init[i].nkey == k;
      assert list[i].nkey == k;
    }
    if k == last.nkey {
      assert list[|list| - 1].nkey == k;
    }
    if InPolicy(list, k) && k != last.nkey {
      var i :| 0 <= i < |list| && list[i].nkey == k;
      assert init[i].nkey == k;
    }
  }

  lemma {:induction false} PlacedKeys(members: map<Edge, nat>, gid: string, list: seq<Member>)
    ensures forall e :: e in Placed(members, gid, list) <==> e in members || (e.0 == gid && InPolicy(list, e.1))
    ensures forall e | e in members && e.0 != gid :: Placed(members, gid, list)[e] == members[e]
    decreases |list|
  {
    if list != [] {
      PlacedKeys(members, gid, list[..|list| - 1]);
      forall k ensures InPolicy(list, k) <==> InPolicy(list[..|list| - 1], k) || k == list[|list| - 1].nkey {
        InPolicyLast(list, k);
      }
    }
  }

  lemma {:induction false} PlacedLeaf(members: map<Edge, nat>, gid: string, list: seq<Member>, i: nat)
    requires Ordered(list) && i < |list|
    ensures (gid, list[i].nkey) in Placed(members, gid, list) && Placed(members, gid, list)[(gid, list[i].nkey)]
            == list[i].leaf
    decreases |list|
  {
    if i < |list| - 1 {
      PlacedLeaf(members, gid, list[..|list| - 1], i);
    }
  }

  lemma PlacedAt(members: map<Edge, nat>, gid: string, list: seq<Member>)
    requires Ordered(list)
    ensures forall e :: e in Placed(members, gid, list) <==> e in members || (e.0 == gid && InPolicy(list, e.1))
    ensures forall i | 0 <= i < |list| ::
             (gid, list[i].nkey) in Placed(members, gid, list)
             && Placed(members, gid, list)[(gid, list[i].nkey)] == list[i].leaf
    ensures forall e | e in members && e.0 != gid :: Placed(members, gid, list)[e] == members[e]
  {
    PlacedKeys(members, gid, list);
    forall i | 0 <= i < |list|
      ensures (gid, list[i].nkey) in Placed(members, gid, list) && Placed(members, gid, list)[(gid, list[i].nkey)]
              == list[i].leaf
    {
      PlacedLeaf(members, gid, list, i);
    }
  }

  lemma AppliedAdmitted(env: Env, t: Tables, u: PolicyUpdate)
    requires MembersAdmitted(env, t) && MembersAllowed(env, t, u.members)
    ensures MembersAdmitted(env, Applied(t, u))
  {
    var t' := Applied(t, u);
    PlacedAt(WithoutGroup(t.members, u.gid), u.gid, u.members);
    forall e | e in t'.members ensures e.0 in t'.groups && Authorized(env, t', e.1) {
      if e.0 == u.gid {
        var i :| 0 <= i < |u.members| && u.members[i].nkey == e.1;
        assert Authorized(env, t, u.members[i].nkey);
      } else {
        assert Authorized(env, t, e.1);
      }
    }
  }

  lemma PlacedLeavesUnique(members: map<Edge, nat>, gid: string, list: seq<Member>)
    requires LeavesUnique(members)
    requires Ordered(list)
    ensures LeavesUnique(Placed(WithoutGroup(members, gid), gid, list))
  {
    var placed := Placed(WithoutGroup(members, gid), gid, list);
    PlacedAt(WithoutGroup(members, gid), gid, list);
    forall e, f | e in placed && f in placed && e.0 == f.0 && placed[e] == placed[f] ensures e == f {
      if e.0 == gid {
        var i :| 0 <= i < |list| && list[i].nkey == e.1;
        var j :| 0 <= j < |list| && list[j].nkey == f.1;
        assert i < j || j < i || i == j;
      }
    }
  }

  lemma AppliedLed(env: Env, t: Tables, u: PolicyUpdate)
    requires MembersAdmitted(env, t) && Coordinated(t) && MembersAllowed(env, t, u.members)
             && InPolicy(u.members, u.signer)
    requires Authorized(env, t, u.signer)
    ensures Coordinated(Applied(t, u))
  {
    var t' := Applied(t, u);
    PlacedAt(WithoutGroup(t.members, u.gid), u.gid, u.members);
    assert (u.gid, u.signer) in t'.members;
    forall g | g in t'.groups ensures Led(t', g) {
      if g != u.gid {
        assert Led(t, g);
        forall e | e in t.members && e.0 == g ensures e in t'.members {}
      }
    }
  }

  lemma AppliedGroupsEvolve(t: Tables, u: PolicyUpdate)
    requires Ordered(u.members)
    requires u.gid in t.groups ==> t.groups[u.gid].generation <= u.expectedGeneration
    ensures GroupsEvolve(t, Applied(t, u))
  {
    var t' := Applied(t, u);
    PlacedAt(WithoutGroup(t.members, u.gid), u.gid, u.members);
    forall g | g in t.groups && g != u.gid ensures SameGroup(t, t', g) {}
  }

  lemma AppliedDevicesEvolve(t: Tables, u: PolicyUpdate)
    requires Ordered(u.members)
    ensures DevicesEvolve(t, Applied(t, u))
  {
    var t' := Applied(t, u);
    PlacedAt(WithoutGroup(t.members, u.gid), u.gid, u.members);
    forall k | k in t.devices && t.devices[k].generation == t'.devices[k].generation ensures SameMembership(t, t', k) {
      forall g ensures (g, k) in t.members <==> (g, k) in t'.members {}
    }
  }

  lemma AppliedStep(env: Env, t: Tables, t': Tables, u: PolicyUpdate)
    requires Inv(env, t) && MembersAllowed(env, t, u.members) && Authorized(env, t, u.signer)
             && InPolicy(u.members, u.signer)
    requires u.gid in t.groups ==> t.groups[u.gid].generation <= u.expectedGeneration
    requires t' == Applied(t, u)
    ensures Inv(env, t') && Evolves(t, t')
  {
    AppliedBumps(t, u);
    BumpsKeepRows(env, t, t');
    AppliedAdmitted(env, t, u);
    PlacedLeavesUnique(t.members, u.gid, u.members);
    AppliedLed(env, t, u);
    AppliedGroupsEvolve(t, u);
    AppliedDevicesEvolve(t, u);
  }

  lemma PolicyStep(env: Env, t: Tables, s: SignedPolicy, rate: bool, storage: bool)
    requires Inv(env, t)
    ensures var t' := ApplyPolicy(env, t, s, rate, storage).0; Inv(env, t') && Evolves(t, t')
  {
    EvolvesReflexive(t);
    var t' := ApplyPolicy(env, t, s, rate, storage).0;
    if t' != t {
      AppliedStep(env, t, t', s.update);
    }
  }

  // ---- Runs ----

  datatype Op =
    | InviteOp(handle: string, ttl: int, newUser: string, secret: string, now: int, storage: bool)
    | EnrollOp(token: Option<Credential>, r: Registration, now: int, storage: bool)
    | ActivateOp(key: string, storage: bool)
    | RevokeOp(key: string, storage: bool)
    | PolicyOp(s: SignedPolicy, rate: bool, storage: bool)

  ghost function Next(env: Env, t: Tables, op: Op): Tables {
    match op
    case InviteOp(handle, ttl, newUser, secret, now, storage) =>
      Invite(env, t, handle, ttl, newUser, secret, now, storage).0
    case EnrollOp(token, r, now, storage) => Enroll(env, t, token, r, now, storage).0
    case ActivateOp(key, storage) => Activate(t, key, storage).0
    case RevokeOp(key, storage) => Revoke(t, key, storage).0
    case PolicyOp(s, rate, storage) => ApplyPolicy(env, t, s, rate, storage).0
  }

  ghost function Run(env: Env, t: Tables, ops: seq<Op>): Tables
    decreases |ops|
  {
    if ops == [] then t else Run(env, Next(env, t, ops[0]), ops[1..])
  }

  lemma StepKeeps(env: Env, t: Tables, op: Op)
    requires Inv(env, t)
    ensures Inv(env, Next(env, t, op)) && Evolves(t, Next(env, t, op))
  {
    match op
    case InviteOp(handle, ttl, newUser, secret, now, storage) =>
      InviteStep(env, t, handle, ttl, newUser, secret, now, storage);
    case EnrollOp(token, r, now, storage) => EnrollStep(env, t, token, r, now, storage);
    case ActivateOp(key, storage) => ActivateStep(env, t, key, storage);
    case RevokeOp(key, storage) => RevokeStep(env, t, key, storage);
    case PolicyOp(s, rate, storage) => PolicyStep(env, t, s, rate, storage);
  }

  /** The invariant holds after every run, and later states evolve from earlier ones. */
  lemma {:induction false} RunKeeps(env: Env, t: Tables, ops: seq<Op>)
    requires Inv(env, t)
    ensures Inv(env, Run(env, t, ops)) && Evolves(t, Run(env, t, ops))
    decreases |ops|
  {
    if ops == [] {
      EvolvesReflexive(t);
    } else {
      var next := Next(env, t, ops[0]);
      StepKeeps(env, t, ops[0]);
      RunKeeps(env, next, ops[1..]);
      EvolvesTransitive(t, next, Run(env, next, ops[1..]));
    }
  }

  lemma StartHolds(env: Env)
    ensures Inv(env, EMPTY_TABLES) && WithinLimits(env, EMPTY_TABLES)
  {}

  lemma StepBounded(env: Env, t: Tables, op: Op)
    requires WithinLimits(env, t)
    ensures WithinLimits(env, Next(env, t, op))
  {
    if op.ActivateOp? && Next(env, t, op) != t {
      ActivateCounts(env, t, op.key);
    } else if op.RevokeOp? && Next(env, t, op) != t {
      RevokedCounts(env, t, op.key);
    }
  }

  /** The declared capacity holds in every reachable state, though revocation and activation never check it. */
  lemma {:induction false} RunBounded(env: Env, t: Tables, ops: seq<Op>)
    requires WithinLimits(env, t)
    ensures WithinLimits(env, Run(env, t, ops))
    decreases |ops|
  {
    if ops != [] {
      StepBounded(env, t, ops[0]);
      RunBounded(env, Next(env, t, ops[0]), ops[1..]);
    }
  }

  // ---- What follows for whole runs ----

  /**
   * Every reachable state is sound, and a device is admitted exactly when its row says ready, not revoked
   * and enabled.
   */
  lemma ReachableStatesAreSound(env: Env, ops: seq<Op>, key: string)
    ensures var t := Run(env, EMPTY_TABLES, ops);
            && Inv(env, t) && WithinLimits(env, t)
            && (Authorized(env, t, key) <==>
                 key in t.devices && t.devices[key].ready && !t.devices[key].revoked
                 && Enabled(t, t.devices[key].user))
  {
    StartHolds(env);
    RunKeeps(env, EMPTY_TABLES, ops);
    RunBounded(env, EMPTY_TABLES, ops);
    var t := Run(env, EMPTY_TABLES, ops);
    assert key in t.devices ==> DeviceSound(env, t, key);
  }

  /**
   * Equal group generations mean the same row, members and leaves; equal device generations the same
   * memberships and revoked flag.
   */
  lemma GenerationsAreVersions(env: Env, t: Tables, ops: seq<Op>, g: string, k: string)
    requires Inv(env, t)
    ensures var t' := Run(env, t, ops);
            && (g in t.groups ==>
                 g in t'.groups && (t'.groups[g].generation == t.groups[g].generation
                 ==> SameGroup(t, t', g)))
            && (k in t.devices ==> k in t'.devices && (t'.devices[k].generation == t.devices[k].generation ==>
                  t'.devices[k].revoked == t.devices[k].revoked && SameMembership(t, t', k)))
  {
    RunKeeps(env, t, ops);
  }

  lemma AcceptedPolicyIsStored(env: Env, t: Tables, s: SignedPolicy, rate: bool, storage: bool)
    requires Inv(env, t) && ApplyPolicy(env, t, s, rate, storage).1.Some?
    ensures var t' := ApplyPolicy(env, t, s, rate, storage).0;
            && s.update.gid in t'.groups
            && t'.groups[s.update.gid].generation == s.update.expectedGeneration + 1
            && t'.groups[s.update.gid].lastUpdate == Some(s.update)
  {}

  /**
   * Optimistic concurrency: once an update against a generation was accepted, no update against the
   * same generation of that group ever changes anything again, and only the very same one is answered.
   */
  lemma ExpectedGenerationIsConsumedOnce(env: Env, t: Tables, s: SignedPolicy, rate: bool, storage: bool, ops: seq<Op>,
                                         s': SignedPolicy, rate': bool, storage': bool)
    requires Inv(env, t) && ApplyPolicy(env, t, s, rate, storage).1.Some?
    requires s'.update.gid == s.update.gid && s'.update.expectedGeneration == s.update.expectedGeneration
    ensures var later := Run(env, ApplyPolicy(env, t, s, rate, storage).0, ops);
            var (after, answer) := ApplyPolicy(env, later, s', rate', storage');
            after == later && (answer.Some? ==> s'.update == s.update)
  {
    var t' := ApplyPolicy(env, t, s, rate, storage).0;
    AcceptedPolicyIsStored(env, t, s, rate, storage);
    PolicyStep(env, t, s, rate, storage);
    RunKeeps(env, t', ops);
    GenerationIsTaken(env, t', Run(env, t', ops), s.update, s', rate', storage');
  }

  lemma GenerationIsTaken(env: Env, t: Tables, later: Tables, u: PolicyUpdate, s: SignedPolicy, rate: bool,
                          storage: bool)
    requires u.gid in t.groups && t.groups[u.gid].generation == u.expectedGeneration + 1
             && t.groups[u.gid].lastUpdate == Some(u)
    requires GroupsEvolve(t, later) && s.update.gid == u.gid && s.update.expectedGeneration == u.expectedGeneration
    ensures var (after, answer) := ApplyPolicy(env, later, s, rate, storage);
            after == later && (answer.Some? ==> s.update == u)
  {
    assert later.groups[u.gid].generation == u.expectedGeneration + 1 ==> SameGroup(t, later, u.gid);
  }

  /**
   * After an accepted policy its group has the epoch and the coordinator it names and exactly the
   * members it lists, at its leaves; every other group is as it was.
   */
  lemma AcceptedPolicyIsInForce(env: Env, t: Tables, s: SignedPolicy, rate: bool, storage: bool)
    requires Inv(env, t) && ApplyPolicy(env, t, s, rate, storage).1.Some? && !IsRetry(t, s.update)
    ensures var t' := ApplyPolicy(env, t, s, rate, storage).0;
            && s.update.gid in t'.groups
            && t'.groups[s.update.gid].epoch == s.update.epoch && t'.groups[s.update.gid].coordinator == s.update.signer
            && (forall g | g != s.update.gid ::
                 (g in t'.groups <==> g in t.groups)
                 && (g in t.groups ==> t'.groups[g] == t.groups[g]))
            && (forall k :: (s.update.gid, k) in t'.members <==> InPolicy(s.update.members, k))
            && (forall i | 0 <= i < |s.update.members| ::
                 t'.members[(s.update.gid, s.update.members[i].nkey)]
                 == s.update.members[i].leaf)
            && (forall e: Edge | e.0 != s.update.gid ::
                 (e in t'.members <==> e in t.members)
                 && (e in t.members ==> t'.members[e] == t.members[e]))
  {
    hide WithinLimits, Authorized, WellFormedPolicy, Inv;
    PlacedAt(WithoutGroup(t.members, s.update.gid), s.update.gid, s.update.members);
    forall k ensures (s.update.gid, k) !in WithoutGroup(t.members, s.update.gid) {}
  }

  /**
   * An exact retry is answered with the same generation, and without a change, exactly as long as the group
   * has not moved on.
   */
  lemma ExactRetry(env: Env, t: Tables, s: SignedPolicy, rate: bool, storage: bool, ops: seq<Op>)
    requires Inv(env, t) && ApplyPolicy(env, t, s, rate, storage).1.Some? && !IsRetry(t, s.update)
    ensures var later := Run(env, ApplyPolicy(env, t, s, rate, storage).0, ops);
            && s.update.gid in later.groups
            && var generation := s.update.expectedGeneration + 1;
               var current := later.groups[s.update.gid].generation == generation;
               ApplyPolicy(env, later, s, true, true) == (later, if current then Some(generation) else None)
  {
    var u := s.update;
    var t' := ApplyPolicy(env, t, s, rate, storage).0;
    AcceptedPolicyIsStored(env, t, s, rate, storage);
    AcceptedPolicyIsInForce(env, t, s, rate, storage);
    PolicyStep(env, t, s, rate, storage);
    RunKeeps(env, t', ops);
    var later := Run(env, t', ops);
    GenerationIsTaken(env, t', later, u, s, true, true);
    if later.groups[u.gid].generation == u.expectedGeneration + 1 {
      assert SameGroup(t', later, u.gid);
      forall i | 0 <= i < |u.members| ensures (u.gid, u.members[i].nkey) in later.members {
        assert InPolicy(u.members, u.members[i].nkey);
      }
      RetrySucceeds(env, later, s);
    }
  }

  lemma RetrySucceeds(env: Env, t: Tables, s: SignedPolicy)
    requires MembersAdmitted(env, t) && WellFormedPolicy(env, s) && IsRetry(t, s.update)
    requires Ordered(s.update.members) && InPolicy(s.update.members, s.update.signer)
    requires forall i | 0 <= i < |s.update.members| :: (s.update.gid, s.update.members[i].nkey) in t.members
    ensures ApplyPolicy(env, t, s, true, true) == (t, Some(s.update.expectedGeneration + 1))
  {
    forall i | 0 <= i < |s.update.members| ensures Authorized(env, t, s.update.members[i].nkey) {
      assert (s.update.gid, s.update.members[i].nkey) in t.members;
    }
  }

  /** A group that lost its last member keeps its row and stays empty for the rest of the run. */
  lemma {:induction false} EmptiedGroupsAreFrozen(env: Env, t: Tables, ops: seq<Op>, g: string)
    requires Inv(env, t) && g in t.groups && Emptied(t, g)
    ensures var t' := Run(env, t, ops); g in t'.groups && t'.groups[g] == t.groups[g] && Emptied(t', g)
    decreases |ops|
  {
    if ops != [] {
      var next := Next(env, t, ops[0]);
      StepKeeps(env, t, ops[0]);
      EmptiedStep(env, t, ops[0], g);
      EmptiedGroupsAreFrozen(env, next, ops[1..], g);
    }
  }

  lemma EmptiedStep(env: Env, t: Tables, op: Op, g: string)
    requires Inv(env, t) && g in t.groups && Emptied(t, g)
    ensures var t' := Next(env, t, op); g in t'.groups && t'.groups[g] == t.groups[g] && Emptied(t', g)
  {
    assert Led(t, g);
    var t' := Next(env, t, op);
    if op.PolicyOp? && t' != t {
      EmptiedByPolicy(env, t, op.s, g);
    } else if op.RevokeOp? && t' != t {
      assert DeviceSound(env, t, op.key);
      EmptiedByRevoke(t, op.key, g);
    }
  }

  lemma EmptiedByRevoke(t: Tables, key: string, g: string)
    requires g in t.groups && t.groups[g].coordinator == "" && Emptied(t, g) && key != ""
    ensures var t' := Revoked(t, key); g in t'.groups && t'.groups[g] == t.groups[g] && Emptied(t', g)
  {}

  /** An accepted policy is signed by a coordinator, which an emptied group does not have. */
  lemma EmptiedByPolicy(env: Env, t: Tables, s: SignedPolicy, g: string)
    requires g in t.groups && t.groups[g].coordinator == "" && Emptied(t, g)
    requires "U" <= s.update.signer && |s.update.members| > 0 && Ordered(s.update.members) && IsCurrent(t, s.update)
    ensures var t' := Applied(t, s.update); g in t'.groups && t'.groups[g] == t.groups[g] && Emptied(t', g)
  {
    PlacedAt(WithoutGroup(t.members, s.update.gid), s.update.gid, s.update.members);
  }

  /** Irreversible revocation: never admitted, never a member and never enrolled again in the rest of the run. */
  lemma RevokedForEver(env: Env, t: Tables, ops: seq<Op>, key: string, token: Option<Credential>, r: Registration,
                       now: int, storage: bool)
    requires Inv(env, t) && key in t.devices && t.devices[key].revoked && r.payload.natsKey == key
    ensures var t' := Run(env, t, ops);
            && !Authorized(env, t', key)
            && (forall g :: (g, key) !in t'.members)
            && !Enroll(env, t', token, r, now, storage).1
  {
    RunKeeps(env, t, ops);
    var t' := Run(env, t, ops);
    forall e | e in t'.members ensures e.1 != key {}
  }

  /**
   * A consumed token answers the registration that consumed it, as long as that device is not revoked, and
   * nothing else.
   */
  lemma TokenBindsOneRegistration(env: Env, t: Tables, token: Credential, r: Registration, now: int, ops: seq<Op>,
                                  r': Registration, now': int)
    requires Inv(env, t) && Enroll(env, t, Some(token), r, now, true).1
    requires ValidRegistration(env.p, r') && env.packageValid(r') && r'.payload.userId == token.user
             && Encode(env.p.registrations, r').Some?
    ensures var later := Run(env, Enroll(env, t, Some(token), r, now, true).0, ops);
            && r.payload.natsKey in later.devices
            && Enroll(env, later, Some(token), r', now', true) == (later, r' == r
               && !later.devices[r.payload.natsKey].revoked)
  {
    var t' := Enroll(env, t, Some(token), r, now, true).0;
    EnrollStep(env, t, Some(token), r, now, true);
    EnrollStores(env, t, token, r, now);
    RunKeeps(env, t', ops);
    ConsumedTokenLater(env, t', Run(env, t', ops), token, r, r', now');
  }

  lemma EnrollStores(env: Env, t: Tables, token: Credential, r: Registration, now: int)
    requires Enroll(env, t, Some(token), r, now, true).1
    ensures Consumed(env, Enroll(env, t, Some(token), r, now, true).0, token, r)
  {}

  ghost predicate Consumed(env: Env, t: Tables, token: Credential, r: Registration) {
    var digest, key := env.digest(token), r.payload.natsKey;
    && digest in t.tokens && t.tokens[digest].usedKey == Some(key)
    && key in t.devices && t.devices[key].registration == r && Enabled(t, t.devices[key].user)
  }

  lemma ConsumedTokenLater(env: Env, t: Tables, later: Tables, token: Credential, r: Registration, r': Registration,
                           now: int)
    requires Consumed(env, t, token, r) && DevicesEvolve(t, later) && RestEvolves(t, later)
    requires ValidRegistration(env.p, r') && env.packageValid(r') && r'.payload.userId == token.user
             && Encode(env.p.registrations, r').Some?
    ensures r.payload.natsKey in later.devices
    ensures Enroll(env, later, Some(token), r', now, true) == (later, r' == r
            && !later.devices[r.payload.natsKey].revoked)
  {
    assert Consumed(env, later, token, r);
  }

  function ConsumedTokens(t: Tables): set<Digest> {
    set d | d in t.tokens && t.tokens[d].usedKey.Some?
  }

  ghost function KeysUsed(t: Tables, ds: set<Digest>): set<string>
    requires ds <= ConsumedTokens(t)
  {
    set d | d in ds :: t.tokens[d].usedKey.value
  }

  /** As many consumed tokens as devices, in every sound state. */
  lemma AsManyTokensAsDevices(t: Tables)
    requires TokensMatchDevices(t)
    ensures |ConsumedTokens(t)| == |t.devices.Keys|
  {
    forall k | k in t.devices ensures k in KeysUsed(t, ConsumedTokens(t)) {
      assert HasToken(t, k);
      var d :| d in t.tokens && t.tokens[d].usedKey == Some(k);
      assert d in ConsumedTokens(t);
    }
    assert KeysUsed(t, ConsumedTokens(t)) == t.devices.Keys;
    ImageSize(t, ConsumedTokens(t));
  }

  lemma {:induction false} ImageSize(t: Tables, ds: set<Digest>)
    requires TokensMatchDevices(t) && ds <= ConsumedTokens(t)
    ensures |KeysUsed(t, ds)| == |ds|
  {
    if ds != {} {
      var x :| x in ds;
      ImageSize(t, ds - {x});
      assert t.tokens[x].usedKey.value !in KeysUsed(t, ds - {x});
      assert KeysUsed(t, ds) == KeysUsed(t, ds - {x}) + {t.tokens[x].usedKey.value};
    }
  }

  // ---- Where devices come from ----

  /** This invitation made this token: its digest is that of the invitation's secret. */
  predicate Issued(env: Env, op: Op, d: Digest, token: Token) {
    && op.InviteOp? && 1 <= op.ttl <= 3600 && token.expires == op.now + op.ttl
    && d == env.digest(Credential(token.user, op.secret))
  }

  /** The same token, used or not. */
  predicate SameToken(a: Token, b: Token) {
    a.user == b.user && a.expires == b.expires
  }

  lemma TokenStep(env: Env, t: Tables, op: Op, d: Digest)
    requires d in Next(env, t, op).tokens
    ensures || (d in t.tokens && SameToken(Next(env, t, op).tokens[d], t.tokens[d]))
            || Issued(env, op, d, Next(env, t, op).tokens[d])
  {
    hide ValidRegistration, WithinLimits;
    if op.InviteOp? {
      InviteTokens(env, t, op, d);
    }
  }

  lemma InviteTokens(env: Env, t: Tables, op: Op, d: Digest)
    requires op.InviteOp? && d in Next(env, t, op).tokens
    ensures || (d in t.tokens && Next(env, t, op).tokens[d] == t.tokens[d])
            || Issued(env, op, d, Next(env, t, op).tokens[d])
  {
    hide WithinLimits, Enabled;
  }

  /** Every token comes from an invitation of the run. */
  lemma {:induction false} TokenOrigin(env: Env, t: Tables, ops: seq<Op>, d: Digest) returns (i: int)
    requires d in Run(env, t, ops).tokens
    ensures i == -1 || (0 <= i < |ops| && Issued(env, ops[i], d, Run(env, t, ops).tokens[d]))
    ensures i == -1 ==> d in t.tokens && SameToken(Run(env, t, ops).tokens[d], t.tokens[d])
    decreases |ops|
  {
    if ops == [] {
      i := -1;
    } else {
      var next := Next(env, t, ops[0]);
      var j := TokenOrigin(env, next, ops[1..], d);
      if j >= 0 {
        i := j + 1;
      } else {
        TokenStep(env, t, ops[0], d);
        i := if Issued(env, ops[0], d, next.tokens[d]) then 0 else -1;
      }
    }
  }

  /** This enrollment presents an unexpired token in the tables it is applied to. */
  predicate Presents(env: Env, t: Tables, op: Op, k: string) {
    && op.EnrollOp? && op.token.Some? && op.r.payload.natsKey == k
    && var d := env.digest(op.token.value);
       d in t.tokens && op.now < t.tokens[d].expires && t.tokens[d].user == op.token.value.user == op.r.payload.userId
  }

  lemma DeviceStep(env: Env, t: Tables, op: Op, k: string)
    requires k in Next(env, t, op).devices && k !in t.devices
    ensures Presents(env, t, op, k)
  {}

  lemma {:induction false} DeviceOrigin(env: Env, t: Tables, ops: seq<Op>, k: string) returns (j: nat)
    requires k in Run(env, t, ops).devices && k !in t.devices
    ensures j < |ops| && Presents(env, Run(env, t, ops[..j]), ops[j], k)
    decreases |ops|
  {
    var next := Next(env, t, ops[0]);
    if k in next.devices {
      j := 0;
      DeviceStep(env, t, ops[0], k);
      assert ops[..0] == [];
    } else {
      var i := DeviceOrigin(env, next, ops[1..], k);
      j := i + 1;
      assert ops[..j][1..] == ops[1..][..i] && ops[..j][0] == ops[0];
    }
  }

  /**
   * Every device was enrolled with a token that an invitation issued at most an hour before: the
   * token it presented has the digest of that invitation's secret, for the user it enrolled.
   */
  lemma EnrolledWithinTheHour(env: Env, ops: seq<Op>, k: string) returns (i: nat, j: nat)
    requires k in Run(env, EMPTY_TABLES, ops).devices
    ensures i < j < |ops| && ops[i].InviteOp? && ops[j].EnrollOp? && ops[j].r.payload.natsKey == k
    ensures ops[j].token.Some? && ops[j].token.value.user == ops[j].r.payload.userId
    ensures env.digest(ops[j].token.value) == env.digest(Credential(ops[j].r.payload.userId, ops[i].secret))
    ensures ops[j].now < ops[i].now + ops[i].ttl <= ops[i].now + 3600
  {
    j := DeviceOrigin(env, EMPTY_TABLES, ops, k);
    var n := TokenOrigin(env, EMPTY_TABLES, ops[..j], env.digest(ops[j].token.value));
    i := n;
  }
}
