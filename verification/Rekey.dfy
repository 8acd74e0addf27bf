/**
 * Who may change a group once devices are revoked: crates/epochgrid-core/src/rekey.rs and the commit
 * part of epochs.rs. A group is its leaves; everything else about MLS is out of sight. A commit that
 * reaches this code has passed MLS validation, which `WellFormed` records.
 */
module Rekey {
  import opened Prelude

  type Key = Bytes

  datatype Leaf = Leaf(key: Key, credential: Bytes)

  /** `stored` is the row of `group_coordinators`. */
  datatype Group = Group(members: map<nat, Leaf>, stored: Option<Key>)

  /** Revoked MLS keys with the last stream sequence they may still author. */
  type Revocations = map<Key, nat>

  /** `path` is the author's new leaf, `others` counts proposals that neither add nor remove. */
  datatype Commit = Commit(author: nat, path: Option<Leaf>, adds: map<nat, Leaf>, removes: seq<nat>, others: nat)

  // ---- Reading ----

  function RevokedLeaves(members: map<nat, Leaf>, revoked: Revocations): set<nat> {
    set i | i in members && members[i].key in revoked
  }

  function Remaining(members: map<nat, Leaf>, revoked: Revocations): set<nat> {
    members.Keys - RevokedLeaves(members, revoked)
  }

  ghost predicate IsLeast(leaves: set<nat>, i: nat) {
    i in leaves && forall j | j in leaves :: i <= j
  }

  ghost function Least(leaves: set<nat>): Option<nat> {
    if exists i :: IsLeast(leaves, i) then
      var i :| IsLeast(leaves, i);
      Some(i)
    else None
  }

  function HoldersOf(members: map<nat, Leaf>, key: Key): set<nat> {
    set i | i in members && members[i].key == key
  }

  /** The first member with the stored key. */
  ghost function Leader(g: Group): Option<nat> {
    if g.stored.None? then None else Least(HoldersOf(g.members, g.stored.value))
  }

  /** `coordinator`: the stored one while it is not revoked, else the least remaining leaf. */
  ghost function Coordinator(g: Group, revoked: Revocations): Option<nat> {
    var leader := Leader(g);
    if leader.Some? && leader.value !in RevokedLeaves(g.members, revoked) then leader
    else Least(Remaining(g.members, revoked))
  }

  /** `refresh_coordinator`: the historical coordinator stays until its leaf is gone. */
  ghost function Refreshed(g: Group, revoked: Revocations): Group {
    if Leader(g).Some? then g
    else
      var next := Coordinator(g, revoked);
      if next.Some? && next.value in g.members then g.(stored := Some(g.members[next.value].key)) else g
  }

  // ---- Commits ----

  /** What MLS itself guarantees of a processed commit. */
  predicate WellFormed(g: Group, c: Commit) {
    && c.author in g.members
    && (forall i | 0 <= i < |c.removes| :: c.removes[i] in g.members && c.removes[i] != c.author)
    && (forall i, j | 0 <= i < j < |c.removes| :: c.removes[i] != c.removes[j])
    && (forall i | i in c.adds :: i !in g.members || i in c.removes)
  }

  /** Cutoff of the author's key not passed. */
  predicate InTime(revoked: Revocations, key: Key, sequence: nat) {
    key in revoked ==> sequence <= revoked[key]
  }

  /** The author keeps its identity and the commit only adds and removes. */
  predicate KeepsIdentity(g: Group, c: Commit) {
    && c.author in g.members
    && (c.path.Some? ==> c.path.value == g.members[c.author])
    && c.others == 0
  }

  /** Removes exactly the revoked leaves, and nothing else. */
  predicate RemovesExactly(c: Commit, expected: set<nat>) {
    && expected != {}
    && |c.removes| == |expected|
    && (forall i | i in expected :: i in c.removes)
    && c.adds == map[]
  }

  /** `validate_commit_author`. */
  ghost predicate Accepts(g: Group, revoked: Revocations, c: Commit, sequence: nat) {
    && KeepsIdentity(g, c)
    && InTime(revoked, g.members[c.author].key, sequence)
    && (Leader(g) == Some(c.author)
        || (Coordinator(g, revoked) == Some(c.author) && RemovesExactly(c, RevokedLeaves(g.members, revoked))))
  }

  /** `merge_staged_commit`, as far as the leaves go. */
  function MergedMembers(members: map<nat, Leaf>, c: Commit): map<nat, Leaf> {
    var rest := map i | i in members && i !in c.removes ::
                  if i == c.author && c.path.Some? then c.path.value else members[i];
    rest + c.adds
  }

  /** `process_handshake` after MLS accepted the commit: merged, or refused and nothing changed. */
  ghost function Process(g: Group, revoked: Revocations, c: Commit, sequence: nat): (Group, bool) {
    if Accepts(g, revoked, c, sequence) then (Refreshed(g.(members := MergedMembers(g.members, c)), revoked), true)
    else (g, false)
  }

  /** The commit `reconcile_revocations` builds, if it is this leaf's turn. */
  ghost function Reconcile(g: Group, revoked: Revocations, own: nat, removal: seq<nat>): Option<Commit> {
    if own in Remaining(g.members, revoked) && Coordinator(g, revoked) == Some(own)
        && RevokedLeaves(g.members, revoked) != {}
    then Some(Commit(own, Some(g.members[own]), map[], removal, 0))
    else None
  }

  // ---- Who can author ----

  lemma LeastExists(leaves: set<nat>)
    requires leaves != {}
    ensures Least(leaves).Some? && IsLeast(leaves, Least(leaves).value)
  {
    var i := LeastOf(leaves);
    assert IsLeast(leaves, i);
  }

  lemma LeastOfNone(leaves: set<nat>)
    ensures Least(leaves).None? <==> leaves == {}
    ensures Least(leaves).Some? ==> IsLeast(leaves, Least(leaves).value)
  {
    if leaves != {} {
      LeastExists(leaves);
    }
  }

  ghost predicate Lists(removal: seq<nat>, leaves: set<nat>) {
    && |removal| == |leaves| && (forall i | i in leaves :: i in removal)
    && (forall i | 0 <= i < |removal| :: removal[i] in leaves)
    && (forall i, j | 0 <= i < j < |removal| :: removal[i] != removal[j])
  }

  lemma {:induction false} Listing(leaves: set<nat>) returns (removal: seq<nat>)
    ensures Lists(removal, leaves)
    decreases |leaves|
  {
    if leaves == {} {
      removal := [];
    } else {
      var i :| i in leaves;
      var rest := Listing(leaves - {i});
      removal := rest + [i];
      forall j | j in leaves ensures j in removal {
        if j != i {
          assert j in leaves - {i};
        }
      }
    }
  }

  /** A list without repetition, as long as a set it covers, lists exactly that set. */
  lemma CoveringLists(removal: seq<nat>, leaves: set<nat>)
    requires |removal| == |leaves| && (forall i | i in leaves :: i in removal)
    ensures forall i | 0 <= i < |removal| :: removal[i] in leaves
  {
    var all := set i | 0 <= i < |removal| :: removal[i];
    CountBounds(removal);
    assert leaves <= all;
    if exists i :: 0 <= i < |removal| && removal[i] !in leaves {
      var i :| 0 <= i < |removal| && removal[i] !in leaves;
      SubsetSize(leaves, all - {removal[i]});
    }
  }

  lemma {:induction false} CountBounds(list: seq<nat>)
    ensures |set i | 0 <= i < |list| :: list[i]| <= |list|
    decreases |list|
  {
    if list != [] {
      var rest := list[..|list| - 1];
      CountBounds(rest);
      var a, b := set i | 0 <= i < |rest| :: rest[i], set i | 0 <= i < |list| :: list[i];
      assert b == a + {list[|list| - 1]} by {
        forall x | x in a ensures x in b {
          var i :| 0 <= i < |rest| && rest[i] == x;
          assert list[i] == x;
        }
      }
    }
  }

  /** Is there any commit of this leaf, valid for MLS, that would be accepted here? */
  ghost predicate CanAuthor(g: Group, revoked: Revocations, i: nat, sequence: nat) {
    exists c: Commit :: c.author == i && WellFormed(g, c) && Accepts(g, revoked, c, sequence)
  }

  /**
   * The least leaf that is not revoked, when some leaf is revoked and the stored coordinator does not lead
   * any more.
   */
  ghost predicate IsSuccessor(g: Group, revoked: Revocations, i: nat) {
    && IsLeast(Remaining(g.members, revoked), i)
    && RevokedLeaves(g.members, revoked) != {}
    && (Leader(g).None? || Leader(g).value in RevokedLeaves(g.members, revoked))
  }

  lemma LeaderHolds(g: Group)
    ensures Leader(g).Some? ==> Leader(g).value in g.members && g.stored == Some(g.members[Leader(g).value].key)
    ensures g.stored.Some? ==> (Leader(g).None? <==> HoldersOf(g.members, g.stored.value) == {})
  {
    if g.stored.Some? {
      LeastOfNone(HoldersOf(g.members, g.stored.value));
    }
  }

  /**
   * Exactly two leaves can ever author: the stored coordinator until its cutoff, and the least
   * remaining leaf once the coordinator is revoked. In particular, with the coordinator revoked and
   * its cutoff passed, exactly one leaf can.
   */
  lemma AuthorsAre(g: Group, revoked: Revocations, i: nat, sequence: nat)
    ensures CanAuthor(g, revoked, i, sequence) <==>
            || (Leader(g) == Some(i) && InTime(revoked, g.members[i].key, sequence))
            || IsSuccessor(g, revoked, i)
  {
    LeaderHolds(g);
    LeastOfNone(Remaining(g.members, revoked));
    if Leader(g) == Some(i) && InTime(revoked, g.members[i].key, sequence) {
      var c := Commit(i, None, map[], [], 0);
      assert WellFormed(g, c) && Accepts(g, revoked, c, sequence);
    }
    if IsSuccessor(g, revoked, i) {
      var removal := Listing(RevokedLeaves(g.members, revoked));
      var c := Commit(i, None, map[], removal, 0);
      assert Least(Remaining(g.members, revoked)) == Some(i);
      assert WellFormed(g, c) && Accepts(g, revoked, c, sequence);
    }
    if CanAuthor(g, revoked, i, sequence) {
      var c: Commit :| c.author == i && WellFormed(g, c) && Accepts(g, revoked, c, sequence);
      if Leader(g) != Some(i) {
        assert IsSuccessor(g, revoked, i);
      }
    }
  }

  // ---- Handover ----

  lemma HandoverMembers(g: Group, revoked: Revocations, c: Commit)
    requires KeepsIdentity(g, c) && c.author in Remaining(g.members, revoked)
             && RemovesExactly(c, RevokedLeaves(g.members, revoked))
    ensures MergedMembers(g.members, c) == map i | i in Remaining(g.members, revoked) :: g.members[i]
  {
    CoveringLists(c.removes, RevokedLeaves(g.members, revoked));
    forall i | i in g.members ensures i in c.removes <==> i in RevokedLeaves(g.members, revoked) {}
  }

  /** With the coordinator out, an accepted commit leaves no revoked leaf and makes its author the coordinator. */
  lemma HandoverCompletes(g: Group, revoked: Revocations, c: Commit, sequence: nat)
    requires WellFormed(g, c) && Accepts(g, revoked, c, sequence)
    requires Leader(g).Some? && !InTime(revoked, g.members[Leader(g).value].key, sequence)
    ensures var after := Process(g, revoked, c, sequence).0;
            && IsLeast(Remaining(g.members, revoked), c.author)
            && after.members == (map i | i in Remaining(g.members, revoked) :: g.members[i])
            && RevokedLeaves(after.members, revoked) == {}
            && after.stored == Some(g.members[c.author].key)
            && Leader(after).Some? && after.members[Leader(after).value].key == g.members[c.author].key
  {
    LeaderHolds(g);
    LeastOfNone(Remaining(g.members, revoked));
    HandoverMembers(g, revoked, c);
    var merged := g.(members := MergedMembers(g.members, c));
    assert HoldersOf(merged.members, g.stored.value) == {};
    LeaderHolds(merged);
    assert Remaining(merged.members, revoked) == Remaining(g.members, revoked);
    var after := Process(g, revoked, c, sequence).0;
    LeastOfNone(Remaining(merged.members, revoked));
    LeaderHolds(after);
    assert c.author in HoldersOf(after.members, after.stored.value);
  }

  /** What `reconcile_revocations` builds is accepted by everybody who knows the same revocations, at any sequence. */
  lemma ReconcileIsAccepted(g: Group, revoked: Revocations, own: nat, removal: seq<nat>, sequence: nat)
    requires Reconcile(g, revoked, own, removal).Some? && Lists(removal, RevokedLeaves(g.members, revoked))
    ensures var c := Reconcile(g, revoked, own, removal).value;
            && WellFormed(g, c) && Accepts(g, revoked, c, sequence)
            && RevokedLeaves(Process(g, revoked, c, sequence).0.members, revoked) == {}
  {
    var c := Reconcile(g, revoked, own, removal).value;
    HandoverMembers(g, revoked, c);
  }

  /** Some remaining leaf always has its turn while a revoked one is left and not all are revoked. */
  lemma SomeoneReconciles(g: Group, revoked: Revocations)
    requires RevokedLeaves(g.members, revoked) != {} && Remaining(g.members, revoked) != {}
    ensures Coordinator(g, revoked).Some?
    ensures var own := Coordinator(g, revoked).value;
            own in Remaining(g.members, revoked) && forall removal :: Reconcile(g, revoked, own, removal).Some?
  {
    LeaderHolds(g);
    LeastExists(Remaining(g.members, revoked));
  }

  // ---- What does not depend on when a revocation is known ----

  lemma LeaderStays(g: Group, c: Commit)
    requires WellFormed(g, c) && KeepsIdentity(g, c) && Leader(g) == Some(c.author)
    ensures Leader(g.(members := MergedMembers(g.members, c))).Some?
  {
    LeaderHolds(g);
    var merged := g.(members := MergedMembers(g.members, c));
    assert c.author !in c.adds;
    assert c.author in HoldersOf(merged.members, g.stored.value);
    LeaderHolds(merged);
  }

  /**
   * A commit of the stored coordinator at or before its cutoff has one verdict and one result, whatever
   * revocations are known yet.
   */
  lemma CoordinatorCommitsAreKnowledgeFree(g: Group, known: Revocations, later: Revocations, c: Commit, sequence: nat)
    requires WellFormed(g, c) && Leader(g) == Some(c.author)
    requires InTime(known, g.members[c.author].key, sequence) && InTime(later, g.members[c.author].key, sequence)
    ensures Process(g, known, c, sequence) == Process(g, later, c, sequence)
    ensures Process(g, known, c, sequence).1 <==> KeepsIdentity(g, c)
  {
    if KeepsIdentity(g, c) {
      LeaderStays(g, c);
    }
  }

  /**
   * A handover is different: clients accept it together only if they see the same leaves as
   * revoked, and a client that has not learned of them yet refuses it.
   */
  lemma HandoverNeedsTheSameRevocations(g: Group, known: Revocations, later: Revocations, c: Commit, sequence: nat)
    requires WellFormed(g, c) && Leader(g) != Some(c.author) && Accepts(g, later, c, sequence)
    ensures Accepts(g, known, c, sequence) <==>
            RevokedLeaves(g.members, known) == RevokedLeaves(g.members, later)
  {
    LeaderHolds(g);
    LeastOfNone(Remaining(g.members, later));
    var a, b := RevokedLeaves(g.members, known), RevokedLeaves(g.members, later);
    CoveringLists(c.removes, b);
    if Accepts(g, known, c, sequence) {
      CoveringLists(c.removes, a);
      assert forall i :: i in a <==> i in b;
    }
    if a == b {
      assert Remaining(g.members, known) == Remaining(g.members, later);
      assert c.author in Remaining(g.members, known);
    }
  }

  /** A handover that a client with the revocation accepts and one without it refuses. */
  lemma HandoverCounterexample()
    ensures var g := Group(map[0 := Leaf([0], []), 1 := Leaf([1], [])], Some([0]));
            var c := Commit(1, None, map[], [0], 0);
            && WellFormed(g, c)
            && Process(g, map[[0] := 7], c, 8).1
            && !Process(g, map[], c, 8).1
  {
    var g := Group(map[0 := Leaf([0], []), 1 := Leaf([1], [])], Some([0]));
    var c := Commit(1, None, map[], [0], 0);
    var revoked: Revocations := map[[0] := 7];
    assert HoldersOf(g.members, [0]) == {0};
    assert IsLeast({0}, 0);
    assert RevokedLeaves(g.members, revoked) == {0};
    assert Remaining(g.members, revoked) == {1};
    assert IsLeast({1}, 1);
    assert Leader(g) == Some(0);
    assert Coordinator(g, revoked) == Some(1);
    assert c.removes[0] == 0;
  }

  // ---- Runs of commits ----

  /** The handshake messages of a stream, in order; refused ones change nothing. */
  ghost function Run(g: Group, revoked: Revocations, log: seq<(Commit, nat)>): Group
    decreases |log|
  {
    if log == [] then g else Run(Process(g, revoked, log[0].0, log[0].1).0, revoked, log[1..])
  }

  /** Every commit of the run passes MLS validation where it is processed. */
  ghost predicate AllWellFormed(g: Group, revoked: Revocations, log: seq<(Commit, nat)>)
    decreases |log|
  {
    log == [] || (WellFormed(g, log[0].0)
                  && AllWellFormed(Process(g, revoked, log[0].0, log[0].1).0, revoked, log[1..]))
  }

  /** No accepted commit of the run removes or replaces this leaf's seat. */
  ghost predicate NeverRemoved(g: Group, revoked: Revocations, log: seq<(Commit, nat)>, i: nat)
    decreases |log|
  {
    log == [] || (i !in log[0].0.removes
                  && NeverRemoved(Process(g, revoked, log[0].0, log[0].1).0, revoked, log[1..], i))
  }

  lemma StepKeepsLeader(g: Group, revoked: Revocations, c: Commit, sequence: nat)
    requires WellFormed(g, c) && Leader(g).Some?
    ensures Leader(Process(g, revoked, c, sequence).0).Some?
  {
    LeaderHolds(g);
    if Accepts(g, revoked, c, sequence) {
      if Leader(g) == Some(c.author) {
        LeaderStays(g, c);
      } else {
        LeastOfNone(Remaining(g.members, revoked));
        HandoverLeads(g, revoked, c);
      }
    }
  }

  lemma HandoverLeads(g: Group, revoked: Revocations, c: Commit)
    requires KeepsIdentity(g, c) && Leader(g).Some? && Leader(g) != Some(c.author)
    requires Coordinator(g, revoked) == Some(c.author) && RemovesExactly(c, RevokedLeaves(g.members, revoked))
    ensures Leader(Refreshed(g.(members := MergedMembers(g.members, c)), revoked)).Some?
  {
    LeastOfNone(Remaining(g.members, revoked));
    HandoverMembers(g, revoked, c);
    var merged := g.(members := MergedMembers(g.members, c));
    LeaderHolds(merged);
    LeastOfNone(Remaining(merged.members, revoked));
    assert Remaining(merged.members, revoked) == Remaining(g.members, revoked);
    var after := Refreshed(merged, revoked);
    LeaderHolds(after);
    if Leader(merged).None? {
      assert c.author in HoldersOf(after.members, after.stored.value);
    }
  }

  /** A group with a coordinator always has one among its members. */
  lemma {:induction false} RunsKeepALeader(g: Group, revoked: Revocations, log: seq<(Commit, nat)>)
    requires AllWellFormed(g, revoked, log) && Leader(g).Some?
    ensures Leader(Run(g, revoked, log)).Some?
    decreases |log|
  {
    if log != [] {
      StepKeepsLeader(g, revoked, log[0].0, log[0].1);
      RunsKeepALeader(Process(g, revoked, log[0].0, log[0].1).0, revoked, log[1..]);
    }
  }

  /** A leaf's signing key and credential never change while it stays a member. */
  lemma {:induction false} LeafKeyIsStable(g: Group, revoked: Revocations, log: seq<(Commit, nat)>, i: nat)
    requires AllWellFormed(g, revoked, log) && i in g.members && NeverRemoved(g, revoked, log, i)
    ensures var after := Run(g, revoked, log); i in after.members && after.members[i] == g.members[i]
    decreases |log|
  {
    if log != [] {
      var next := Process(g, revoked, log[0].0, log[0].1).0;
      assert i in next.members && next.members[i] == g.members[i];
      LeafKeyIsStable(next, revoked, log[1..], i);
    }
  }

  /** Every commit of the run is by the coordinator, at or before any known cutoff of its key. */
  ghost predicate ByCoordinator(g: Group, known: Revocations, later: Revocations, log: seq<(Commit, nat)>)
    decreases |log|
  {
    log == [] ||
    (&& Leader(g) == Some(log[0].0.author) && log[0].0.author in g.members
     && InTime(known, g.members[log[0].0.author].key, log[0].1)
        && InTime(later, g.members[log[0].0.author].key, log[0].1)
     && ByCoordinator(Process(g, known, log[0].0, log[0].1).0, known, later, log[1..]))
  }

  /** So clients that learn of revocations at different times agree as long as the coordinator speaks in time. */
  lemma {:induction false} LateKnowledgeAgrees(g: Group, known: Revocations, later: Revocations,
                                               log: seq<(Commit, nat)>)
    requires AllWellFormed(g, known, log) && ByCoordinator(g, known, later, log)
    ensures Run(g, known, log) == Run(g, later, log)
    decreases |log|
  {
    if log != [] {
      CoordinatorCommitsAreKnowledgeFree(g, known, later, log[0].0, log[0].1);
      LateKnowledgeAgrees(Process(g, known, log[0].0, log[0].1).0, known, later, log[1..]);
    }
  }

  // ---- The store ----

  class GroupStore {
    var members: map<nat, Leaf>
    var stored: Option<Key>
    var revoked: Revocations

    ghost function Now(): Group
      reads this
    {
      Group(members, stored)
    }

    constructor (members: map<nat, Leaf>, stored: Option<Key>)
      ensures Now() == Group(members, stored) && revoked == map[]
    {
      this.members, this.stored, this.revoked := members, stored, map[];
    }

    method MinOf(leaves: set<nat>) returns (least: Option<nat>)
      ensures least == Least(leaves)
    {
      least := None;
      var todo := leaves;
      while todo != {}
        invariant todo <= leaves
        invariant least.None? ==> todo == leaves
        invariant least.Some? ==> IsLeast(leaves - todo, least.value)
        decreases todo
      {
        var i :| i in todo;
        assert leaves - (todo - {i}) == (leaves - todo) + {i};
        todo := todo - {i};
        if least.None? || i < least.value {
          least := Some(i);
        }
      }
      LeastOfNone(leaves);
      assert least.Some? ==> leaves - todo == leaves;
    }

    method FindLeader() returns (leader: Option<nat>)
      ensures leader == Leader(Now())
    {
      if stored.None? {
        return None;
      }
      leader := MinOf(HoldersOf(members, stored.value));
    }

    method FindCoordinator() returns (i: Option<nat>)
      ensures i == Coordinator(Now(), revoked)
    {
      var out := RevokedLeaves(members, revoked);
      i := FindLeader();
      if i.Some? && i.value !in out {
        return;
      }
      i := MinOf(members.Keys - out);
    }

    method RefreshCoordinator()
      modifies this`stored
      ensures Now() == Refreshed(old(Now()), revoked)
    {
      var leader := FindLeader();
      if leader.Some? {
        return;
      }
      var next := FindCoordinator();
      if next.Some? && next.value in members {
        stored := Some(members[next.value].key);
      }
    }

    /** `validate_commit_author`, check by check. */
    method ValidateAuthor(c: Commit, sequence: nat) returns (ok: bool)
      ensures ok <==> Accepts(Now(), revoked, c, sequence)
    {
      if c.author !in members {
        return false;
      }
      var sender := members[c.author];
      if c.path.Some? && c.path.value != sender {
        return false;
      }
      if c.others != 0 {
        return false;
      }
      if sender.key in revoked && sequence > revoked[sender.key] {
        return false;
      }
      var leader := FindLeader();
      if leader == Some(c.author) {
        return true;
      }
      var expected := RevokedLeaves(members, revoked);
      var coordinator := FindCoordinator();
      return coordinator == Some(c.author) && expected != {} && |c.removes| == |expected|
             && (forall i | i in expected :: i in c.removes) && c.adds == map[];
    }

    method ProcessCommit(c: Commit, sequence: nat) returns (ok: bool)
      modifies this`members, this`stored
      ensures (Now(), ok) == Process(old(Now()), revoked, c, sequence)
    {
      ok := ValidateAuthor(c, sequence);
      if ok {
        members := MergedMembers(members, c);
        RefreshCoordinator();
      }
    }

    /** `reconcile_revocations`: the sender ends in the state every receiver of its commit reaches. */
    method ReconcileRevocations(own: nat, active: bool) returns (sent: Option<Commit>)
      modifies this`members, this`stored
      ensures sent.Some? <==>
            active && own in Remaining(old(members), revoked)
            && Coordinator(old(Now()), revoked) == Some(own)
            && RevokedLeaves(old(members), revoked) != {}
      ensures sent.None? ==> Now() == old(Now())
      ensures sent.Some? ==> RevokedLeaves(members, revoked) == {}
      ensures sent.Some? ==> WellFormed(old(Now()), sent.value)
                             && forall sequence: nat ::
                                 Process(old(Now()), revoked, sent.value, sequence)
                                 == (Now(), true)
    {
      var out := RevokedLeaves(members, revoked);
      var coordinator := FindCoordinator();
      if !active || own !in members.Keys - out || coordinator != Some(own) || out == {} {
        return None;
      }
      ghost var before := Now();
      var removal := ListOf(out);
      var c := Commit(own, Some(members[own]), map[], removal, 0);
      forall sequence: nat
        ensures Accepts(before, revoked, c, sequence)
        ensures WellFormed(before, c) && RevokedLeaves(Process(before, revoked, c, sequence).0.members, revoked) == {}
      {
        ReconcileIsAccepted(before, revoked, own, removal, sequence);
      }
      members := MergedMembers(members, c);
      RefreshCoordinator();
      assert Process(before, revoked, c, 0) == (Now(), true);
      return Some(c);
    }

    method ListOf(leaves: set<nat>) returns (removal: seq<nat>)
      ensures Lists(removal, leaves)
    {
      removal := [];
      var todo := leaves;
      while todo != {}
        invariant todo <= leaves
        invariant Lists(removal, leaves - todo)
        decreases todo
      {
        var i :| i in todo;
        assert leaves - (todo - {i}) == (leaves - todo) + {i};
        assert forall j | j in leaves - todo :: j in removal + [i];
        todo := todo - {i};
        removal := removal + [i];
      }
      assert leaves - todo == leaves;
    }
  }
}
