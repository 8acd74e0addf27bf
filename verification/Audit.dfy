/**
 * The authority's audit log: crates/epochgrid-core/src/audit.rs and the audit part of
 * crates/epochgrid-service/src/diagnostics.rs. A `Log` is the committed state row with the event
 * and pending tables; `storage` says whether the page quota and the commit of one call succeed.
 */
module Audit {
  import opened Prelude
  import opened Wire

  const MAX_EVENTS: int := 100_000
  const MAX_BYTES: int := 32 * 1024 * 1024
  const RESERVE_EVENTS: int := 1024
  const RESERVE_BYTES: int := 2 * 1024 * 1024
  const MAX_EVENT_BYTES: int := 2048
  const PENDING_LIMIT: int := 256
  const BATCH: nat := 256

  predicate ValidReference(s: string) {
    |s| == 32 && forall i | 0 <= i < |s| :: '0' <= s[i] <= '9' || 'a' <= s[i] <= 'f'
  }

  type Reference = s: string | ValidReference(s) witness seq(32, _ => '0')

  datatype Kind =
    | TokenIssued | DeviceEnrolled | DeviceActivated | DeviceRevoked | PolicyCommitted | PolicyRejected | Admission
    | ResponseConstructed | Reconciliation | RegistrationPublication | RevocationPublication | AuthorityStarted
    | WorkerSessionStarted | WorkerSessionEnded | AdmissionGate | ObservationLoss | StorageRecovered | Export | Prune
    | RetentionChanged | DenialSummary

  datatype Stage = Committed | Intent | Result | Observation

  datatype Outcome = Succeeded | Failed | Unknown | Denied

  datatype Actor = LocalOperator | VerifiedDevice | BoundWorker | Authority | Unverified

  datatype Reason = Verified | Rejected | ExternalEffect | LocalArtifact | ExplicitPrune | CoverageUncertain
    | IdempotentRetry

  datatype Event = Event(
    kind: Kind,
    stage: Stage,
    outcome: Outcome,
    reason: Reason,
    actor: Actor,
    count: nat,
    actorReference: Option<Reference>,
    targetReference: Option<Reference>,
    generation: Option<nat>,
    windowSeconds: Option<nat>,
    boundary: Option<nat>)

  function CommittedEvent(kind: Kind): Event {
    Event(kind, Committed, Succeeded, Verified, Authority, 1, None, None, None, None, None)
  }

  datatype Record = Record(
    version: nat,
    store: string,
    sequence: nat,
    instance: string,
    operation: string,
    wall: Option<int>,
    event: Event)

  /** What one append takes from outside: a fresh operation id, the process id and the wall clock. */
  datatype Draw = Draw(operation: Reference, instance: Reference, wall: Option<int>)

  /** The key of a pending effect; as text, the kind in quotes, a colon and the target or nothing. */
  datatype Effect = Effect(kind: Kind, target: Option<Reference>)

  datatype Row = Row(sequence: nat, payload: Bytes)

  /** `rows` is the event table in primary-key order. */
  datatype Log = Log(
    next: nat,
    from: nat,
    events: int,
    bytes: int,
    policy: nat,
    through: nat,
    degraded: bool,
    pending: map<Effect, string>,
    rows: seq<Row>)

  const EMPTY_LOG := Log(1, 1, 0, 0, 1, 0, false, map[], [])

  datatype Env = Env(store: Reference, json: Codec<Record>)

  // ---- Queries ----

  /** `SELECT ... WHERE sequence>after AND sequence<=upto ORDER BY sequence LIMIT limit`. */
  function Query(rows: seq<Row>, after: int, upto: int, limit: nat): seq<Row> {
    if rows == [] || limit == 0 then []
    else if after < rows[0].sequence <= upto then [rows[0]] + Query(rows[1..], after, upto, limit - 1)
    else Query(rows[1..], after, upto, limit)
  }

  /** `DELETE ... WHERE sequence<=last`. */
  function Delete(rows: seq<Row>, last: int): seq<Row> {
    if rows == [] then []
    else (if rows[0].sequence > last then [rows[0]] else []) + Delete(rows[1..], last)
  }

  /** `SUM(length(payload))`. */
  function Size(rows: seq<Row>): nat {
    if rows == [] then 0 else |rows[0].payload| + Size(rows[1..])
  }

  function Payloads(rows: seq<Row>): seq<Bytes> {
    seq(|rows|, i requires 0 <= i < |rows| => rows[i].payload)
  }

  // ---- Appending ----

  /** The checks of `info`. */
  predicate Healthy(log: Log) {
    && 0 < log.from <= log.next && log.next <= I64_MAX
    && 0 <= log.events <= MAX_EVENTS && 0 <= log.bytes <= MAX_BYTES
    && log.policy > 0 && log.through < log.next && |log.pending| <= PENDING_LIMIT
  }

  /** The quotas; only repairs and administration may use the reserve. */
  predicate Fits(log: Log, size: nat, reserve: bool) {
    && log.events < MAX_EVENTS - (if reserve then 0 else RESERVE_EVENTS)
    && log.bytes + size <= MAX_BYTES - (if reserve then 0 else RESERVE_BYTES)
  }

  function RecordOf(env: Env, sequence: nat, event: Event, operation: string, d: Draw): Record {
    Record(1, env.store, sequence, d.instance, operation, d.wall, event)
  }

  function PayloadOf(env: Env, log: Log, event: Event, operation: string, d: Draw): Bytes {
    env.json.encode(RecordOf(env, log.next, event, operation, d))
  }

  predicate CanAppend(env: Env, log: Log, event: Event, reserve: bool, operation: string, d: Draw) {
    && ValidReference(operation)
    && Healthy(log)
    && (reserve || !log.degraded)
    && log.next < I64_MAX
    && |PayloadOf(env, log, event, operation, d)| <= MAX_EVENT_BYTES
    && Fits(log, |PayloadOf(env, log, event, operation, d)|, reserve)
  }

  function Inserted(log: Log, payload: Bytes): Log {
    log.(
      rows := log.rows + [Row(log.next, payload)],
      next := log.next + 1,
      events := log.events + 1,
      bytes := log.bytes + |payload|)
  }

  /** `append_operation`. */
  function AppendOperation(env: Env, log: Log, event: Event, reserve: bool, operation: string, d: Draw): Option<Log> {
    if !CanAppend(env, log, event, reserve, operation, d) then None
    else Some(Inserted(log, PayloadOf(env, log, event, operation, d)))
  }

  function Append(env: Env, log: Log, event: Event, reserve: bool, d: Draw): Option<Log> {
    AppendOperation(env, log, event, reserve, d.operation, d)
  }

  function AppendAll(env: Env, log: Log, entries: seq<(Event, Draw)>): Option<Log> {
    if entries == [] then Some(log)
    else
      match AppendAll(env, log, entries[..|entries| - 1])
      case None => None
      case Some(mid) => Append(env, mid, entries[|entries| - 1].0, false, entries[|entries| - 1].1)
  }

  /** `audit_batch`: all events or none. */
  function Batch(env: Env, log: Log, entries: seq<(Event, Draw)>, storage: bool): (Log, bool) {
    if |entries| > BATCH then (log, false)
    else
      match AppendAll(env, log, entries)
      case None => (log, false)
      case Some(next) => if storage then (next, true) else (log, false)
  }

  function Degrade(log: Log): Log {
    log.(degraded := true)
  }

  /** The UPDATE that sets the mark; nobody looks at its result. */
  function Marked(log: Log, mark: bool): Log {
    if mark then Degrade(log) else log
  }

  /** What succeeds of one call: opening its transaction, the page quota, writing the mark, the commit. */
  datatype Disk = Disk(begins: bool, quota: bool, mark: bool, commit: bool)
  {
    predicate Commits() {
      begins && quota && commit
    }
  }

  const WORKING := Disk(true, true, true, true)

  /** `audit_repair`: what cannot be recorded is to leave a mark instead, in the same transaction. */
  function Repair(env: Env, log: Log, event: Event, d: Draw, disk: Disk): Log {
    if !disk.begins || !disk.commit then log
    else
      match Append(env, log, event, true, d)
      case Some(next) => if disk.quota then next else Marked(log, disk.mark)
      case None => Marked(log, disk.mark)
  }

  // ---- External effects ----

  function IntentEvent(kind: Kind, target: Option<Reference>, actor: Option<Reference>): Event {
    var author := if actor.Some? then VerifiedDevice else Authority;
    Event(kind, Intent, Unknown, ExternalEffect, author, 1, actor, target, None, None, None)
  }

  /**
   * `audit_effect_inner`: an effect already under way keeps its operation, once the transaction is open.
   * The mark of a failure is written after the transaction, on its own.
   */
  function EffectIntent(env: Env, log: Log, kind: Kind, target: Option<Reference>, reserve: bool,
                        actor: Option<Reference>, d: Draw, disk: Disk): (Log, Option<string>) {
    var name := Effect(kind, target);
    if !disk.begins then (Marked(log, disk.mark), None)
    else if name in log.pending then (log, Some(log.pending[name]))
    else if |log.pending| >= PENDING_LIMIT then (Marked(log, disk.mark), None)
    else NewIntent(env, log, name, IntentEvent(kind, target, actor), reserve, d, disk)
  }

  function NewIntent(env: Env, log: Log, name: Effect, event: Event, reserve: bool, d: Draw,
                     disk: Disk): (Log, Option<string>) {
    match Append(env, log, event, reserve, d)
    case Some(next) =>
      if disk.Commits() then (next.(pending := next.pending[name := d.operation]), Some(d.operation))
      else (Marked(log, disk.mark), None)
    case None => (Marked(log, disk.mark), None)
  }

  function ResultEvent(kind: Kind, success: bool): Event {
    var outcome := if success then Succeeded else Failed;
    var reason := if kind == Export then LocalArtifact else ExternalEffect;
    var actor := if kind == Export then LocalOperator else Authority;
    Event(kind, Result, outcome, reason, actor, 1, None, None, None, None, None)
  }

  function Settled(pending: map<Effect, string>, operation: string): map<Effect, string> {
    map name | name in pending && pending[name] != operation :: pending[name]
  }

  /** `audit_effect_result`, with the mark of a failure written on its own again. */
  function EffectResult(env: Env, log: Log, kind: Kind, operation: Option<string>, success: bool, d: Draw,
                        disk: Disk): Log {
    if operation.None? then log
    else
      match AppendOperation(env, log, ResultEvent(kind, success), true, operation.value, d)
      case Some(next) =>
        if !disk.Commits() then Marked(log, disk.mark)
        else if success || kind == Export then next.(pending := Settled(next.pending, operation.value))
        else next
      case None => Marked(log, disk.mark)
  }

  // ---- Administration ----

  function RetentionEvent(log: Log, through: nat): Event {
    CommittedEvent(RetentionChanged)
      .(actor := LocalOperator, generation := Some(log.policy + 1), boundary := Some(through))
  }

  /** `set_retention`. */
  function SetRetention(env: Env, log: Log, through: nat, d: Draw, storage: bool): (Log, bool) {
    if !Healthy(log) || through >= log.next then (log, false)
    else
      match Append(env, log.(through := through, policy := log.policy + 1), RetentionEvent(log, through), true, d)
      case Some(next) => if storage then (next, true) else (log, false)
      case None => (log, false)
  }

  function PruneEvent(log: Log, count: nat, last: nat): Event {
    var event := CommittedEvent(Prune).(reason := ExplicitPrune, actor := LocalOperator, count := count);
    event.(boundary := Some(last), generation := Some(log.policy))
  }

  function Pruned(log: Log, batch: seq<Row>): Log
    requires batch != []
  {
    var last := batch[|batch| - 1].sequence;
    log.(
      rows := Delete(log.rows, last),
      from := last + 1,
      events := log.events - |batch|,
      bytes := log.bytes - Size(batch))
  }

  /** `prune`: at most 256 of the oldest rows and one marker, within the stored permission. */
  function PruneBatch(env: Env, log: Log, through: nat, apply: bool, d: Draw, storage: bool): (Log, Option<nat>) {
    if !Healthy(log) || through > log.through then (log, None)
    else
      var batch := Query(log.rows, -1, through, BATCH);
      if !apply || batch == [] then (log, Some(0))
      else
        match Append(env, Pruned(log, batch), PruneEvent(log, |batch|, batch[|batch| - 1].sequence), true, d)
        case Some(next) => if storage then (next, Some(|batch|)) else (log, None)
        case None => (log, None)
  }

  const RECOVERY: Event := CommittedEvent(StorageRecovered).(actor := LocalOperator)

  /** `recover`. */
  function Recover(env: Env, log: Log, d: Draw, storage: bool): (Log, bool) {
    var fewer := log.events + 1 < MAX_EVENTS - RESERVE_EVENTS;
    var smaller := log.bytes + MAX_EVENT_BYTES <= MAX_BYTES - RESERVE_BYTES;
    if !Healthy(log) || !fewer || !smaller then (log, false)
    else
      match Append(env, log, RECOVERY, true, d)
      case Some(next) => if storage then (next.(degraded := false), true) else (log, false)
      case None => (log, false)
  }

  /** `admission_capacity` of the health report. */
  predicate AdmissionCapacity(log: Log) {
    && !log.degraded
    && log.events < MAX_EVENTS - RESERVE_EVENTS
    && log.bytes + MAX_EVENT_BYTES <= MAX_BYTES - RESERVE_BYTES
  }

  // ---- Exporting ----

  predicate CursorAllowed(env: Env, log: Log, store: string, after: nat, upper: nat, limit: nat) {
    1 <= limit <= 10_000 && Healthy(log) && store == env.store && log.from - 1 <= after <= upper < log.next
  }

  /** The binding checks on one exported payload. */
  predicate Bound(env: Env, payload: Bytes, sequence: nat) {
    && |payload| <= MAX_EVENT_BYTES
    && var r := env.json.decode(payload);
       && r.Some? && r.value.version == 1 && r.value.store == env.store && r.value.sequence == sequence
       && ValidReference(r.value.store) && ValidReference(r.value.operation) && ValidReference(r.value.instance)
  }

  /** What an export of a sound log writes. */
  function Exported(env: Env, log: Log, store: string, after: nat, upper: nat, limit: nat): Option<seq<Bytes>> {
    if !CursorAllowed(env, log, store, after, upper, limit) then None
    else Some(Payloads(Query(log.rows, after, upper, limit)))
  }
}
