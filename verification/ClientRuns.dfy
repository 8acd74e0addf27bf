/**
 * Whole runs of a client installation, with refused snapshots, refused logs and crashes between any
 * two durable writes: the accepted snapshots and revocation logs form one chain each, the local
 * revocation index agrees with the log, and device pins never move.
 */
module ClientRuns {
  import opened Prelude
  import opened Wire
  import opened Transparency
  import opened RevocationLogs
  import opened ClientHome

  datatype Op =
    | LookUp(registration: Registration, commits: bool)
    | VerifyByHand(name: DeviceName, typed: string, commits: bool)
    | PinKey(signer: string, commits: bool)
    | TakeSnapshot(s: Snapshot, budget: nat)
    | AuditBoth(s: Snapshot, log: RevocationLog, budget: nat)

  /** The rows, and every snapshot and log accepted so far. */
  datatype Trace = Trace(home: Home, snapshots: seq<Snapshot>, logs: seq<RevocationLog>)

  function Apply(p: Primitives, t: Trace, op: Op): Trace {
    match op
    case LookUp(r, commits) => t.(home := Observe(p, t.home, r, commits).0)
    case VerifyByHand(name, typed, commits) => t.(home := Verify(t.home, name, typed, commits).0)
    case PinKey(signer, commits) => t.(home := Pin(p, t.home, signer, commits).0)
    case TakeSnapshot(s, budget) =>
      var (home, ok, _) := AcceptCheckpoint(p, t.home, s, budget);
      Trace(home, if ok then t.snapshots + [s] else t.snapshots, t.logs)
    case AuditBoth(s, log, budget) =>
      var (_, stored, _) := AcceptCheckpoint(p, t.home, s, budget);
      var (home, ok) := Audit(p, t.home, s, log, budget);
      Trace(home,
            if ValidLog(p, log, s) && stored then t.snapshots + [s] else t.snapshots,
            if ok then t.logs + [log] else t.logs)
  }

  function Run(p: Primitives, ops: seq<Op>): Trace {
    if ops == [] then Trace(EMPTY_HOME, [], [])
    else Apply(p, Run(p, ops[..|ops| - 1]), ops[|ops| - 1])
  }

  // ---- What each step leaves alone ----

  lemma {:induction false} ObserveOnlyTouchesTrust(p: Primitives, home: Home, entries: seq<Registration>, budget: nat)
    ensures var after := ObserveAll(p, home, entries, budget).0; after == home.(trust := after.trust)
    decreases |entries|
  {
    if entries != [] {
      var (next, ok) := Observe(p, home, entries[0], budget > 0);
      if ok && budget > 0 {
        ObserveOnlyTouchesTrust(p, next, entries[1..], budget - 1);
      }
    }
  }

  /** The effect of `accept_checkpoint` on everything but the pins. */
  lemma CheckpointEffect(p: Primitives, home: Home, s: Snapshot, budget: nat)
    ensures var (after, ok, _) := AcceptCheckpoint(p, home, s, budget);
            && after.revoked == home.revoked && after.revocationCheckpoint == home.revocationCheckpoint
            && after.checkpoint == (if ok then Some(s.checkpoint) else home.checkpoint)
            && (home.signer.Some? ==> after.signer == home.signer)
            && (ok ==> ValidSnapshot(p, s) && after.signer == Some(s.checkpoint.signer))
            && (ok && home.checkpoint.Some? ==> Extends(p, s, home.checkpoint.value))
  {
    if ValidSnapshot(p, s) {
      var (pinned, ok) := Pin(p, home, s.checkpoint.signer, budget > 0);
      if ok {
        ObserveOnlyTouchesTrust(p, pinned, s.entries, budget - 1);
      }
    }
  }

  // ---- The accepted snapshots form a chain ----

  ghost predicate Chain(p: Primitives, snapshots: seq<Snapshot>) {
    && (forall i | 0 <= i < |snapshots| :: ValidSnapshot(p, snapshots[i]))
    && forall i, j | 0 <= i <= j < |snapshots| ::
         snapshots[i].entries <= snapshots[j].entries
           && snapshots[i].checkpoint.signer == snapshots[j].checkpoint.signer
  }

  ghost predicate LogChain(logs: seq<RevocationLog>) {
    forall i, j | 0 <= i <= j < |logs| :: logs[i].entries <= logs[j].entries
  }

  /** Rows only for revoked keys, each with the data of its revocation. */
  ghost predicate RowsAgree(p: Primitives, revoked: map<string, RevokedDevice>, log: seq<Revocation>, s: Snapshot) {
    forall k | k in revoked :: exists e | e in log :: e.request.nkey == k && RowOf(p, e, s) == Some(revoked[k])
  }

  /** And one for every revoked key. */
  ghost predicate IndexAgrees(p: Primitives, revoked: map<string, RevokedDevice>, log: seq<Revocation>, s: Snapshot) {
    RowsAgree(p, revoked, log, s) && forall e | e in log :: e.request.nkey in revoked
  }

  /** The accepted snapshots form a chain that ends in the stored checkpoint. */
  ghost predicate Chained(p: Primitives, t: Trace) {
    && Chain(p, t.snapshots)
    && t.home.checkpoint == (if t.snapshots == [] then None else Some(t.snapshots[|t.snapshots| - 1].checkpoint))
  }

  /** The last accepted log is stored, valid against the last accepted snapshot, and indexed. */
  ghost predicate Indexed(p: Primitives, home: Home, logs: seq<RevocationLog>, snapshots: seq<Snapshot>) {
    if logs == [] then home.revocationCheckpoint == None && home.revoked == map[]
    else
      && snapshots != []
      && var log, s := logs[|logs| - 1], snapshots[|snapshots| - 1];
         && home.revocationCheckpoint == Some(log.checkpoint)
         && ValidLog(p, log, s)
         && IndexAgrees(p, home.revoked, log.entries, s)
  }

  ghost predicate Coherent(p: Primitives, t: Trace) {
    Chained(p, t) && LogChain(t.logs) && Indexed(p, t.home, t.logs, t.snapshots)
  }

  /** The prefix check of one accepted snapshot was passed with a colliding pair of inputs. */
  ghost predicate SnapshotForged(p: Primitives, snapshots: seq<Snapshot>, i: nat) {
    0 < i < |snapshots| && SnapshotClash(p, snapshots[i - 1], snapshots[i])
  }

  ghost predicate LogForged(p: Primitives, logs: seq<RevocationLog>, i: nat) {
    0 < i < |logs| && LogClash(p, logs[i - 1], logs[i])
  }

  ghost predicate SnapshotsForged(p: Primitives, snapshots: seq<Snapshot>) {
    exists i: nat :: SnapshotForged(p, snapshots, i)
  }

  /** Two neighbours among the accepted snapshots or logs yield two inputs with one digest. */
  ghost predicate Forged(p: Primitives, t: Trace) {
    SnapshotsForged(p, t.snapshots) || exists i: nat :: LogForged(p, t.logs, i)
  }

  lemma ForgedStays(p: Primitives, t: Trace, t': Trace)
    requires t.snapshots <= t'.snapshots && t.logs <= t'.logs
    ensures SnapshotsForged(p, t.snapshots) ==> SnapshotsForged(p, t'.snapshots)
    ensures Forged(p, t) ==> Forged(p, t')
  {
    if i: nat :| SnapshotForged(p, t.snapshots, i) {
      assert SnapshotForged(p, t'.snapshots, i);
    }
    if i: nat :| LogForged(p, t.logs, i) {
      assert LogForged(p, t'.logs, i);
    }
  }

  lemma ChainGrows(p: Primitives, snapshots: seq<Snapshot>, s: Snapshot)
    requires p.Sane() && Chain(p, snapshots) && ValidSnapshot(p, s)
    requires snapshots != [] ==> Extends(p, s, snapshots[|snapshots| - 1].checkpoint)
    ensures Chain(p, snapshots + [s]) || SnapshotsForged(p, snapshots + [s])
  {
    if snapshots != [] {
      ExtendsIsPrefix(p, s, snapshots[|snapshots| - 1]);
      if SnapshotClash(p, snapshots[|snapshots| - 1], s) {
        assert SnapshotForged(p, snapshots + [s], |snapshots|);
      }
    }
  }

  lemma {:induction false} FindKeyInPrefix(entries: seq<Registration>, more: seq<Registration>, nkey: string)
    requires entries <= more && FindKey(entries, nkey).Some?
    ensures FindKey(more, nkey) == FindKey(entries, nkey)
  {
    if entries[0].payload.natsKey != nkey {
      FindKeyInPrefix(entries[1..], more[1..], nkey);
    }
  }

  lemma RowStays(p: Primitives, e: Revocation, s: Snapshot, s': Snapshot)
    requires s.entries <= s'.entries && RowOf(p, e, s).Some?
    ensures RowOf(p, e, s') == RowOf(p, e, s)
  {
    FindKeyInPrefix(s.entries, s'.entries, e.request.nkey);
  }

  lemma IndexAgreesLater(p: Primitives, revoked: map<string, RevokedDevice>, log: seq<Revocation>, s: Snapshot,
                         s': Snapshot)
    requires IndexAgrees(p, revoked, log, s) && s.entries <= s'.entries
    ensures IndexAgrees(p, revoked, log, s')
  {
    forall k | k in revoked ensures exists e | e in log :: e.request.nkey == k && RowOf(p, e, s') == Some(revoked[k]) {
      var e :| e in log && e.request.nkey == k && RowOf(p, e, s) == Some(revoked[k]);
      RowStays(p, e, s, s');
    }
  }

  /** INSERT OR IGNORE brings an index that agrees with a prefix of the log up to date. */
  lemma {:induction false} IndexCatchesUp(p: Primitives, revoked: map<string, RevokedDevice>, log: seq<Revocation>,
                                          entries: seq<Revocation>, s: Snapshot)
    requires entries <= log && RowsAgree(p, revoked, log, s)
    requires Index(p, revoked, entries, s).Some?
    ensures var after := Index(p, revoked, entries, s).value;
            && RowsAgree(p, after, log, s)
            && (forall e | e in entries :: e.request.nkey in after)
            && revoked.Keys <= after.Keys
    decreases |entries|
  {
    if entries != [] {
      var init, last := entries[..|entries| - 1], entries[|entries| - 1];
      IndexCatchesUp(p, revoked, log, init, s);
      assert entries == init + [last] && last in log;
    }
  }

  /** The trace after a snapshot was offered. */
  function Taken(p: Primitives, t: Trace, s: Snapshot, budget: nat): Trace {
    var (home, ok, _) := AcceptCheckpoint(p, t.home, s, budget);
    Trace(home, if ok then t.snapshots + [s] else t.snapshots, t.logs)
  }

  lemma ChainedCheckpoint(p: Primitives, t: Trace, s: Snapshot, budget: nat)
    requires p.Sane() && Chained(p, t)
    ensures Chained(p, Taken(p, t, s, budget)) || SnapshotsForged(p, Taken(p, t, s, budget).snapshots)
  {
    CheckpointEffect(p, t.home, s, budget);
    if AcceptCheckpoint(p, t.home, s, budget).1 {
      ChainGrows(p, t.snapshots, s);
    }
  }

  lemma CoherentCheckpoint(p: Primitives, t: Trace, s: Snapshot, budget: nat)
    requires p.Sane() && Coherent(p, t)
    ensures Coherent(p, Taken(p, t, s, budget)) || Forged(p, Taken(p, t, s, budget))
  {
    hide AcceptCheckpoint, Chain, Indexed, LogChain, Extends, ValidSnapshot, SnapshotsForged, LogForged;
    ChainedCheckpoint(p, t, s, budget);
    CheckpointEffect(p, t.home, s, budget);
    var (home, ok, _) := AcceptCheckpoint(p, t.home, s, budget);
    var more := if ok then [s] else [];
    assert Taken(p, t, s, budget).snapshots == t.snapshots + more;
    if Chained(p, Taken(p, t, s, budget)) {
      IndexedLater(p, t.home, home, t.logs, t.snapshots, more);
    }
  }

  /** A longer snapshot leaves the index right. */
  lemma IndexedLater(p: Primitives, home: Home, home': Home, logs: seq<RevocationLog>,
                     snapshots: seq<Snapshot>, more: seq<Snapshot>)
    requires Indexed(p, home, logs, snapshots) && Chain(p, snapshots + more)
    requires home'.revoked == home.revoked && home'.revocationCheckpoint == home.revocationCheckpoint
    ensures Indexed(p, home', logs, snapshots + more)
  {
    hide ValidSnapshot, ValidLog, IndexAgrees;
    if logs != [] {
      var i, chain := |snapshots| - 1, snapshots + more;
      var last, s := chain[i], chain[|chain| - 1];
      LogStaysValid(p, logs[|logs| - 1], last, s);
      IndexAgreesLater(p, home.revoked, logs[|logs| - 1].entries, last, s);
    }
  }

  /** The effect of an accepted revocation log. */
  lemma RevocationEffect(p: Primitives, home: Home, log: RevocationLog, s: Snapshot, commits: bool)
    ensures var (after, ok) := AcceptRevocations(p, home, log, s, commits);
            && (!ok ==> after == home)
            && (ok ==>
                  && ValidLog(p, log, s)
                  && (home.revocationCheckpoint.Some? ==> LogExtends(p, log, home.revocationCheckpoint.value))
                  && Index(p, home.revoked, log.entries, s).Some?
                  && var index := Index(p, home.revoked, log.entries, s).value;
                     after == home.(revoked := index, revocationCheckpoint := Some(log.checkpoint)))
  {}

  lemma LogChainGrows(logs: seq<RevocationLog>, log: RevocationLog)
    requires LogChain(logs) && (logs != [] ==> logs[|logs| - 1].entries <= log.entries)
    ensures LogChain(logs + [log])
  {}

  lemma CoherentRevocations(p: Primitives, t: Trace, log: RevocationLog, s: Snapshot, commits: bool)
    requires p.Sane() && Coherent(p, t) && t.snapshots != [] && s == t.snapshots[|t.snapshots| - 1]
    ensures Coherent(p, Audited(p, t, log, s, commits)) || Forged(p, Audited(p, t, log, s, commits))
  {
    hide AcceptRevocations, Chain, LogChain, LogExtends, ValidLog, Index, IndexAgrees, LogClash, SnapshotsForged;
    RevocationEffect(p, t.home, log, s, commits);
    var (home, ok) := AcceptRevocations(p, t.home, log, s, commits);
    if ok {
      if t.logs != [] {
        var previous := t.logs[|t.logs| - 1];
        LogExtendsIsPrefix(p, log, s, previous, s);
        if LogClash(p, previous, log) {
          assert LogForged(p, t.logs + [log], |t.logs|);
          return;
        }
      }
      LogChainGrows(t.logs, log);
      IndexedByNewLog(p, t, log, s);
    }
  }

  /** Indexing a log that repeats the last one leaves a row for each of its keys, and no other. */
  lemma IndexedByNewLog(p: Primitives, t: Trace, log: RevocationLog, s: Snapshot)
    requires Indexed(p, t.home, t.logs, t.snapshots)
    requires t.logs != [] ==> t.logs[|t.logs| - 1].entries <= log.entries && s == t.snapshots[|t.snapshots| - 1]
    requires Index(p, t.home.revoked, log.entries, s).Some?
    ensures IndexAgrees(p, Index(p, t.home.revoked, log.entries, s).value, log.entries, s)
  {
    if t.logs != [] {
      var previous := t.logs[|t.logs| - 1];
      assert forall e | e in previous.entries :: e in log.entries;
    }
    assert RowsAgree(p, t.home.revoked, log.entries, s);
    IndexCatchesUp(p, t.home.revoked, log.entries, log.entries, s);
  }

  /** The trace after a revocation log was offered against the snapshot just accepted. */
  function Audited(p: Primitives, t: Trace, log: RevocationLog, s: Snapshot, commits: bool): Trace {
    var (home, ok) := AcceptRevocations(p, t.home, log, s, commits);
    Trace(home, t.snapshots, if ok then t.logs + [log] else t.logs)
  }

  /** An audit either does nothing or is a checkpoint followed by a revocation log. */
  lemma AuditInSteps(p: Primitives, t: Trace, s: Snapshot, log: RevocationLog, budget: nat)
    ensures var (_, ok, left) := AcceptCheckpoint(p, t.home, s, budget);
            Apply(p, t, AuditBoth(s, log, budget)) ==
            if !ValidLog(p, log, s) then t
            else if !ok then Taken(p, t, s, budget)
            else Audited(p, Taken(p, t, s, budget), log, s, left > 0)
  {}

  lemma AuditedGrows(p: Primitives, t: Trace, log: RevocationLog, s: Snapshot, commits: bool)
    ensures var next := Audited(p, t, log, s, commits);
            next.snapshots == t.snapshots && t.logs <= next.logs && next.home.checkpoint == t.home.checkpoint
  {
    RevocationEffect(p, t.home, log, s, commits);
  }

  lemma CoherentAudit(p: Primitives, t: Trace, s: Snapshot, log: RevocationLog, budget: nat)
    requires p.Sane() && Coherent(p, t)
    ensures var next := Apply(p, t, AuditBoth(s, log, budget)); Coherent(p, next) || Forged(p, next)
  {
    AuditInSteps(p, t, s, log, budget);
    CoherentCheckpoint(p, t, s, budget);
    var (_, ok, left) := AcceptCheckpoint(p, t.home, s, budget);
    if ok {
      var mid := Taken(p, t, s, budget);
      AuditedGrows(p, mid, log, s, left > 0);
      if Forged(p, mid) {
        ForgedStays(p, mid, Audited(p, mid, log, s, left > 0));
      } else {
        CoherentRevocations(p, mid, log, s, left > 0);
      }
    }
  }

  lemma ChainedStep(p: Primitives, t: Trace, op: Op)
    requires p.Sane() && Chained(p, t)
    ensures Chained(p, Apply(p, t, op)) || SnapshotsForged(p, Apply(p, t, op).snapshots)
  {
    match op
    case TakeSnapshot(s, budget) => ChainedCheckpoint(p, t, s, budget);
    case AuditBoth(s, log, budget) =>
      AuditInSteps(p, t, s, log, budget);
      ChainedCheckpoint(p, t, s, budget);
      AuditedGrows(p, Taken(p, t, s, budget), log, s, AcceptCheckpoint(p, t.home, s, budget).2 > 0);
    case _ => PinsOnly(p, t, op);
  }

  /** Looking up, verifying and pinning leave checkpoints and the index alone. */
  lemma PinsOnly(p: Primitives, t: Trace, op: Op)
    requires !op.TakeSnapshot? && !op.AuditBoth?
    ensures var after := Apply(p, t, op);
            after == t.(home := t.home.(trust := after.home.trust, signer := after.home.signer))
  {}

  lemma CoherentPins(p: Primitives, t: Trace, op: Op)
    requires Coherent(p, t) && !op.TakeSnapshot? && !op.AuditBoth?
    ensures Coherent(p, Apply(p, t, op))
  {
    hide Apply, Chain, LogChain, ValidLog, IndexAgrees;
    PinsOnly(p, t, op);
  }

  lemma TraceGrows(p: Primitives, t: Trace, op: Op)
    ensures t.snapshots <= Apply(p, t, op).snapshots && t.logs <= Apply(p, t, op).logs
  {}

  /** Over any run the accepted snapshots form a chain, or two neighbours among them yield a collision. */
  lemma {:induction false} RunsAreChained(p: Primitives, ops: seq<Op>)
    requires p.Sane()
    ensures Chained(p, Run(p, ops)) || SnapshotsForged(p, Run(p, ops).snapshots)
  {
    if ops != [] {
      var t, op := Run(p, ops[..|ops| - 1]), ops[|ops| - 1];
      RunsAreChained(p, ops[..|ops| - 1]);
      TraceGrows(p, t, op);
      ForgedStays(p, t, Apply(p, t, op));
      if Chained(p, t) {
        ChainedStep(p, t, op);
      }
    }
  }

  /** And the stored rows agree with the accepted logs, or two neighbours of the run yield a collision. */
  lemma {:induction false} RunsAreCoherent(p: Primitives, ops: seq<Op>)
    requires p.Sane()
    ensures Coherent(p, Run(p, ops)) || Forged(p, Run(p, ops))
  {
    if ops != [] {
      hide Coherent, Forged, AcceptCheckpoint;
      var t, op := Run(p, ops[..|ops| - 1]), ops[|ops| - 1];
      RunsAreCoherent(p, ops[..|ops| - 1]);
      TraceGrows(p, t, op);
      ForgedStays(p, t, Apply(p, t, op));
      if !Forged(p, t) {
        match op
        case TakeSnapshot(s, budget) => CoherentCheckpoint(p, t, s, budget);
        case AuditBoth(s, log, budget) => CoherentAudit(p, t, s, log, budget);
        case _ => CoherentPins(p, t, op);
      }
    }
  }

  // ---- What follows for whole runs ----

  /** All accepted snapshots have one signer and repeat each other from the start, however far apart. */
  lemma AcceptedSnapshotsFormOneChain(p: Primitives, ops: seq<Op>, i: nat, j: nat)
    requires p.Sane() && i <= j < |Run(p, ops).snapshots|
    ensures var a, b := Run(p, ops).snapshots[i], Run(p, ops).snapshots[j];
            || (a.entries <= b.entries && a.checkpoint.signer == b.checkpoint.signer)
            || SnapshotsForged(p, Run(p, ops).snapshots)
  {
    RunsAreChained(p, ops);
  }

  /** No endpoint and no NKey is ever accepted with two registrations. */
  lemma NoEndpointHasTwoRegistrations(p: Primitives, ops: seq<Op>, i: nat, j: nat, x: Registration, y: Registration)
    requires p.Sane() && i < |Run(p, ops).snapshots| && j < |Run(p, ops).snapshots|
    requires x in Run(p, ops).snapshots[i].entries && y in Run(p, ops).snapshots[j].entries
    requires NameOf(x) == NameOf(y) || x.payload.natsKey == y.payload.natsKey
    ensures x == y || SnapshotsForged(p, Run(p, ops).snapshots)
  {
    RunsAreChained(p, ops);
    var snapshots := Run(p, ops).snapshots;
    if !SnapshotsForged(p, snapshots) {
      var k := if i <= j then j else i;
      assert snapshots[i].entries <= snapshots[k].entries && snapshots[j].entries <= snapshots[k].entries;
      SameIdentity(p, snapshots[k], x, y);
    }
  }

  lemma {:induction false} FindKeyFinds(entries: seq<Registration>, nkey: string)
    requires FindKey(entries, nkey).Some?
    ensures FindKey(entries, nkey).value in entries && FindKey(entries, nkey).value.payload.natsKey == nkey
  {
    if entries[0].payload.natsKey != nkey {
      FindKeyFinds(entries[1..], nkey);
    }
  }

  lemma CheckpointKeepsIndex(p: Primitives, t: Trace, op: Op)
    requires Apply(p, t, op).logs == []
    ensures t.logs == [] && Apply(p, t, op).home.revoked == t.home.revoked
  {
    match op
    case TakeSnapshot(s, budget) => CheckpointEffect(p, t.home, s, budget);
    case AuditBoth(s, log, budget) =>
      CheckpointEffect(p, t.home, s, budget);
      var (next, _, left) := AcceptCheckpoint(p, t.home, s, budget);
      RevocationEffect(p, next, log, s, left > 0);
    case _ => PinsOnly(p, t, op);
  }

  /** Before any revocation log is accepted the index is empty. */
  lemma {:induction false} NothingRevokedAtFirst(p: Primitives, ops: seq<Op>)
    requires Run(p, ops).logs == []
    ensures Run(p, ops).home.revoked == map[]
  {
    if ops != [] {
      CheckpointKeepsIndex(p, Run(p, ops[..|ops| - 1]), ops[|ops| - 1]);
      NothingRevokedAtFirst(p, ops[..|ops| - 1]);
    }
  }

  /** Do the rows hold, for `nkey`, the endpoint and cutoff of `e` and the MLS key of `r`? */
  ghost predicate IndexedAs(p: Primitives, revoked: map<string, RevokedDevice>, nkey: string, e: Revocation,
                            r: Registration) {
    && NameOf(r) == (e.request.user, e.request.device)
    && p.keyPackage(r.payload.mlsKeyPackage).Some? && nkey in revoked
    && var mlsKey := p.keyPackage(r.payload.mlsKeyPackage).value.signatureKey;
       revoked[nkey] == RevokedDevice(e.request.user, e.request.device, mlsKey, e.chatCutoff)
  }

  /**
   * Is `nkey` indexed exactly when the log revokes it, with the endpoint and cutoff of its only
   * revocation and the MLS key of the registration that holds the NKey?
   */
  ghost predicate KeyIndexedAsLogged(p: Primitives, revoked: map<string, RevokedDevice>, log: seq<Revocation>,
                                     s: seq<Registration>, nkey: string) {
    && (nkey in revoked <==> Revokes(log, nkey))
    && (nkey in revoked ==> exists r | r in s :: r.payload.natsKey == nkey)
    && forall e, r | e in log && e.request.nkey == nkey && r in s && r.payload.natsKey == nkey ::
         IndexedAs(p, revoked, nkey, e, r)
  }

  /** The row of a revocation, told by any copy of it in the log and of its registration in the snapshot. */
  lemma RowIsTheRevocation(p: Primitives, log: RevocationLog, s: Snapshot, e: Revocation, e': Revocation,
                           r: Registration)
    requires ValidLog(p, log, s) && e in log.entries && e' in log.entries && e.request.nkey == e'.request.nkey
    requires r in s.entries && r.payload.natsKey == e.request.nkey && RowOf(p, e', s).Some?
    ensures NameOf(r) == (e.request.user, e.request.device) && p.keyPackage(r.payload.mlsKeyPackage).Some?
    ensures var mlsKey := p.keyPackage(r.payload.mlsKeyPackage).value.signatureKey;
            RowOf(p, e', s) == Some(RevokedDevice(e.request.user, e.request.device, mlsKey, e.chatCutoff))
  {
    FindKeyFinds(s.entries, e.request.nkey);
    RevokedOnce(p, log, s, e, e');
    SameIdentity(p, s, r, FindKey(s.entries, e.request.nkey).value);
    RevokedRegistration(p, log, s, e, r);
  }

  lemma AgreementIsExact(p: Primitives, revoked: map<string, RevokedDevice>, log: RevocationLog, s: Snapshot,
                         nkey: string)
    requires ValidLog(p, log, s) && IndexAgrees(p, revoked, log.entries, s)
    ensures KeyIndexedAsLogged(p, revoked, log.entries, s.entries, nkey)
  {
    hide ValidLog;
    if nkey in revoked {
      var e' :| e' in log.entries && e'.request.nkey == nkey && RowOf(p, e', s) == Some(revoked[nkey]);
      FindKeyFinds(s.entries, nkey);
      forall e, r | e in log.entries && e.request.nkey == nkey && r in s.entries && r.payload.natsKey == nkey
        ensures IndexedAs(p, revoked, nkey, e, r)
      {
        RowIsTheRevocation(p, log, s, e, e', r);
      }
    }
  }

  /** The local index is the accepted log, although rows are only ever inserted and never replaced. */
  lemma RevocationIndexIsTheLog(p: Primitives, ops: seq<Op>, nkey: string)
    requires p.Sane() && Run(p, ops).logs != []
    ensures Forged(p, Run(p, ops)) ||
            var t := Run(p, ops);
            && t.snapshots != []
            && var log, s := t.logs[|t.logs| - 1], t.snapshots[|t.snapshots| - 1];
               KeyIndexedAsLogged(p, t.home.revoked, log.entries, s.entries, nkey)
  {
    RunsAreCoherent(p, ops);
    var t := Run(p, ops);
    if !Forged(p, t) {
      AgreementIsExact(p, t.home.revoked, t.logs[|t.logs| - 1], t.snapshots[|t.snapshots| - 1], nkey);
    }
  }

  lemma RevokedRegistration(p: Primitives, log: RevocationLog, s: Snapshot, e: Revocation, r: Registration)
    requires ValidLog(p, log, s) && e in log.entries && r in s.entries && r.payload.natsKey == e.request.nkey
    ensures NameOf(r) == (e.request.user, e.request.device)
  {
    var i :| 0 <= i < |log.entries| && log.entries[i] == e;
    assert ValidEntry(p, log.entries, i, s);
    var q :| q in s.entries && q.payload.userId == e.request.user && q.payload.deviceId == e.request.device
        && q.payload.natsKey == e.request.nkey;
    SameIdentity(p, s, q, r);
  }

  // ---- Pins ----

  /** First fingerprints, the blocked state and the directory key are permanent. */
  ghost predicate PinsKept(a: Home, b: Home) {
    && (a.signer.Some? ==> b.signer == a.signer)
    && forall name | name in a.trust ::
         && name in b.trust
         && b.trust[name].fingerprint == a.trust[name].fingerprint
         && (a.trust[name].state.Changed? ==> b.trust[name].state.Changed?)
  }

  lemma {:induction false} ObserveAllKeepsPins(p: Primitives, home: Home, entries: seq<Registration>, budget: nat)
    ensures PinsKept(home, ObserveAll(p, home, entries, budget).0)
    ensures ObserveAll(p, home, entries, budget).1 ==>
              forall r | r in entries :: NameOf(r) in ObserveAll(p, home, entries, budget).0.trust
                 && Fingerprint(p, r) == Some(ObserveAll(p, home, entries, budget).0.trust[NameOf(r)].fingerprint)
    decreases |entries|
  {
    if entries != [] {
      var (next, ok) := Observe(p, home, entries[0], budget > 0);
      if ok && budget > 0 {
        ObserveAllKeepsPins(p, next, entries[1..], budget - 1);
        assert entries == [entries[0]] + entries[1..];
      }
    }
  }

  lemma CheckpointKeepsPins(p: Primitives, home: Home, s: Snapshot, budget: nat)
    ensures var (after, ok, _) := AcceptCheckpoint(p, home, s, budget);
            && PinsKept(home, after)
            && (ok ==> forall r | r in s.entries ::
                        NameOf(r) in after.trust
                        && Fingerprint(p, r) == Some(after.trust[NameOf(r)].fingerprint))
  {
    if ValidSnapshot(p, s) {
      var (pinned, ok) := Pin(p, home, s.checkpoint.signer, budget > 0);
      if ok {
        ObserveOnlyTouchesTrust(p, pinned, s.entries, budget - 1);
        ObserveAllKeepsPins(p, pinned, s.entries, budget - 1);
      }
    }
  }

  lemma StepKeepsPins(p: Primitives, t: Trace, op: Op)
    ensures PinsKept(t.home, Apply(p, t, op).home)
  {
    match op
    case TakeSnapshot(s, budget) => CheckpointKeepsPins(p, t.home, s, budget);
    case AuditBoth(s, log, budget) =>
      CheckpointKeepsPins(p, t.home, s, budget);
      var (next, ok, left) := AcceptCheckpoint(p, t.home, s, budget);
      RevocationEffect(p, next, log, s, left > 0);
    case _ =>
  }

  lemma {:induction false} PinsStick(p: Primitives, ops: seq<Op>, more: seq<Op>)
    ensures PinsKept(Run(p, ops).home, Run(p, ops + more).home)
  {
    if more == [] {
      assert ops + more == ops;
    } else {
      var before := ops + more[..|more| - 1];
      PinsStick(p, ops, more[..|more| - 1]);
      assert (ops + more)[..|ops + more| - 1] == before;
      StepKeepsPins(p, Run(p, before), more[|more| - 1]);
    }
  }

  /** Once two identities were seen for a device, no look-up, verification or snapshot of it succeeds again. */
  lemma ChangedDeviceStaysBlocked(p: Primitives, ops: seq<Op>, more: seq<Op>, r: Registration, s: Snapshot,
                                  typed: string, commits: bool, budget: nat)
    requires NameOf(r) in Run(p, ops).home.trust && Run(p, ops).home.trust[NameOf(r)].state.Changed?
    ensures !Observe(p, Run(p, ops + more).home, r, commits).1
    ensures Verify(Run(p, ops + more).home, NameOf(r), typed, commits) == (Run(p, ops + more).home, false)
    ensures r in s.entries ==> !AcceptCheckpoint(p, Run(p, ops + more).home, s, budget).1
  {
    PinsStick(p, ops, more);
    var home := Run(p, ops + more).home;
    if r in s.entries && ValidSnapshot(p, s) {
      var pinned, left := Pin(p, home, s.checkpoint.signer, budget > 0).0, if budget > 0 then budget - 1 else 0;
      BlockedEntry(p, pinned, s.entries, left, r);
    }
  }

  lemma {:induction false} BlockedEntry(p: Primitives, home: Home, entries: seq<Registration>, budget: nat,
                                        r: Registration)
    requires r in entries && NameOf(r) in home.trust && home.trust[NameOf(r)].state.Changed?
    ensures !ObserveAll(p, home, entries, budget).1
    decreases |entries|
  {
    if entries[0] != r && budget > 0 {
      BlockedEntry(p, Observe(p, home, entries[0], true).0, entries[1..], budget - 1, r);
    }
  }

  /** Every registration of every accepted snapshot still has the fingerprint pinned for its device. */
  lemma {:induction false} AcceptedEntriesArePinned(p: Primitives, ops: seq<Op>, i: nat, r: Registration)
    requires i < |Run(p, ops).snapshots| && r in Run(p, ops).snapshots[i].entries
    ensures NameOf(r) in Run(p, ops).home.trust
            && Fingerprint(p, r) == Some(Run(p, ops).home.trust[NameOf(r)].fingerprint)
  {
    var init, op := ops[..|ops| - 1], ops[|ops| - 1];
    var t := Run(p, init);
    StepKeepsPins(p, t, op);
    if i < |t.snapshots| {
      AcceptedEntriesArePinned(p, init, i, r);
    } else {
      match op
      case TakeSnapshot(s, budget) => CheckpointKeepsPins(p, t.home, s, budget);
      case AuditBoth(s, log, budget) =>
        CheckpointKeepsPins(p, t.home, s, budget);
        var (next, ok, left) := AcceptCheckpoint(p, t.home, s, budget);
        RevocationEffect(p, next, log, s, left > 0);
    }
  }

  lemma {:induction false} ObserveNeverVerifies(p: Primitives, home: Home, entries: seq<Registration>, budget: nat,
                                                name: DeviceName)
    requires var after := ObserveAll(p, home, entries, budget).0;
            name in after.trust
            && after.trust[name].state.Verified?
    ensures name in home.trust && home.trust[name].state.Verified?
    decreases |entries|
  {
    if entries != [] {
      var (next, ok) := Observe(p, home, entries[0], budget > 0);
      if ok && budget > 0 {
        ObserveNeverVerifies(p, next, entries[1..], budget - 1, name);
      }
    }
  }

  lemma StepVerifies(p: Primitives, t: Trace, op: Op, name: DeviceName)
    requires name in Apply(p, t, op).home.trust && Apply(p, t, op).home.trust[name].state.Verified?
    ensures (name in t.home.trust && t.home.trust[name].state.Verified?)
         || (op.VerifyByHand? && op.name == name && CompleteFingerprint(Typed(op.typed))
            && Typed(op.typed) == Apply(p, t, op).home.trust[name].fingerprint)
  {
    if op.TakeSnapshot? || op.AuditBoth? {
      var s, budget := op.s, op.budget;
      if ValidSnapshot(p, s) {
        var (pinned, ok) := Pin(p, t.home, s.checkpoint.signer, budget > 0);
        var (next, ok', left) := AcceptCheckpoint(p, t.home, s, budget);
        if op.AuditBoth? {
          RevocationEffect(p, next, op.log, s, left > 0);
        }
        if ok {
          ObserveOnlyTouchesTrust(p, pinned, s.entries, budget - 1);
          if next.trust == Apply(p, t, op).home.trust {
            ObserveNeverVerifies(p, pinned, s.entries, budget - 1, name);
          }
        }
      }
    }
  }

  /** A device is only ever shown as verified when its complete pinned fingerprint was typed in. */
  lemma {:induction false} VerifiedOnlyByHand(p: Primitives, ops: seq<Op>, name: DeviceName)
    requires name in Run(p, ops).home.trust && Run(p, ops).home.trust[name].state.Verified?
    ensures exists i | 0 <= i < |ops| ::
             ops[i].VerifyByHand? && ops[i].name == name
             && Typed(ops[i].typed) == Run(p, ops).home.trust[name].fingerprint
  {
    var init, op := ops[..|ops| - 1], ops[|ops| - 1];
    StepVerifies(p, Run(p, init), op, name);
    StepKeepsPins(p, Run(p, init), op);
    if name in Run(p, init).home.trust && Run(p, init).home.trust[name].state.Verified? {
      VerifiedOnlyByHand(p, init, name);
      var i :| 0 <= i < |init| && init[i].VerifyByHand? && init[i].name == name
          && Typed(init[i].typed) == Run(p, init).home.trust[name].fingerprint;
      assert ops[i] == init[i];
    } else {
      assert ops[|ops| - 1] == op;
    }
  }
}
