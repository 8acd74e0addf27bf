/**
 * What holds of the audit log over whole runs. `full` is every payload ever committed, in order:
 * sequence n is `full[n - 1]`, whether or not it is still retained.
 */
module AuditRuns {
  import opened Prelude
  import opened Wire
  import opened Audit

  // ---- Soundness ----

  function Rows(full: seq<Bytes>, from: nat): seq<Row>
    requires 0 < from <= |full| + 1
  {
    seq(|full| + 1 - from, i requires 0 <= i < |full| + 1 - from => Row(from + i, full[from + i - 1]))
  }

  predicate IntentFor(env: Env, payload: Bytes, name: Effect, operation: string) {
    var r := env.json.decode(payload);
    && r.Some? && r.value.operation == operation && r.value.event.stage == Intent
    && Effect(r.value.event.kind, r.value.event.targetReference) == name
  }

  ghost predicate HasIntent(env: Env, full: seq<Bytes>, name: Effect, operation: string) {
    exists i :: 0 <= i < |full| && IntentFor(env, full[i], name, operation)
  }

  ghost predicate PendingRecorded(env: Env, full: seq<Bytes>, pending: map<Effect, string>) {
    forall n {:trigger pending[n]} | n in pending :: HasIntent(env, full, n, pending[n])
  }

  ghost predicate AllBound(env: Env, full: seq<Bytes>) {
    forall i | 0 <= i < |full| :: Bound(env, full[i], i + 1)
  }

  /** The table holds exactly `from..next` of the history, and the counters count it. */
  ghost predicate Counted(log: Log, full: seq<Bytes>) {
    && log.next == |full| + 1
    && 0 < log.from <= log.next
    && log.rows == Rows(full, log.from)
    && log.events == |log.rows|
    && log.bytes == Size(log.rows)
  }

  ghost predicate Sound(env: Env, log: Log, full: seq<Bytes>) {
    Healthy(log) && Counted(log, full) && AllBound(env, full) && PendingRecorded(env, full, log.pending)
  }

  // ---- Queries over a contiguous table ----

  lemma {:induction false} SizeAdds(a: seq<Row>, b: seq<Row>)
    ensures Size(a + b) == Size(a) + Size(b)
  {
    if a == [] {
      assert a + b == b;
    } else {
      assert (a + b)[1..] == a[1..] + b;
      SizeAdds(a[1..], b);
    }
  }

  lemma SizeSplits(rows: seq<Row>, k: nat)
    requires k <= |rows|
    ensures Size(rows) == Size(rows[..k]) + Size(rows[k..])
  {
    SizeAdds(rows[..k], rows[k..]);
    assert rows == rows[..k] + rows[k..];
  }

  lemma RowsDrop(full: seq<Bytes>, from: nat, k: nat)
    requires 0 < from && from + k <= |full| + 1
    ensures Rows(full, from)[k..] == Rows(full, from + k)
  {}

  ghost predicate Contiguous(rows: seq<Row>, from: int) {
    forall i | 0 <= i < |rows| :: rows[i].sequence == from + i
  }

  function Clamp(x: int, lo: int, hi: int): (r: int)
    requires lo <= hi
    ensures lo <= r <= hi
  {
    if x < lo then lo else if x > hi then hi else x
  }

  /** Where the window of a query over `n` consecutive sequences begins and ends. */
  function Begin(n: nat, from: int, after: int): int {
    Clamp(after + 1 - from, 0, n)
  }

  function End(n: nat, from: int, after: int, upto: int, limit: nat): int {
    var lo := Begin(n, from, after);
    Clamp(lo + limit, lo, Clamp(upto + 1 - from, lo, n))
  }

  lemma WindowMoves(n: nat, from: int, after: int, upto: int, limit: nat)
    requires n > 0 && limit > 0
    ensures var keep := after < from <= upto;
            var lo, end := Begin(n, from, after), End(n, from, after, upto, limit);
            var rest := if keep then limit - 1 else limit;
            var lo', end' := Begin(n - 1, from + 1, after), End(n - 1, from + 1, after, upto, rest);
            && (keep ==> lo == 0 && lo' == 0 && end == end' + 1)
            && (!keep ==> (lo == lo' + 1 && end == end' + 1) || (lo == end == 0 && lo' == end'))
  {}

  /** Over consecutive sequences a bounded range query is a slice. */
  lemma {:induction false} QueryIsSlice(rows: seq<Row>, from: int, after: int, upto: int, limit: nat)
    requires Contiguous(rows, from)
    ensures Query(rows, after, upto, limit)
            == rows[Begin(|rows|, from, after)..End(|rows|, from, after, upto, limit)]
    decreases |rows|
  {
    if rows != [] && limit != 0 {
      var keep := after < rows[0].sequence <= upto;
      QueryIsSlice(rows[1..], from + 1, after, upto, if keep then limit - 1 else limit);
      WindowMoves(|rows|, from, after, upto, limit);
      var lo, end := Begin(|rows|, from, after), End(|rows|, from, after, upto, limit);
      hide Begin, End;
      if end > 0 {
        SliceMoves(rows, lo, end);
      }
    }
  }

  lemma SliceMoves(rows: seq<Row>, lo: nat, end: nat)
    requires lo <= end <= |rows| && 0 < end
    ensures rows[lo..end] == if lo > 0 then rows[1..][lo - 1..end - 1] else [rows[0]] + rows[1..][0..end - 1]
  {
    if lo > 0 {
      assert rows[1..][lo - 1..end - 1] == rows[lo..end];
    } else {
      assert [rows[0]] + rows[1..][0..end - 1] == rows[0..end];
    }
  }

  lemma {:induction false} DeleteIsDrop(rows: seq<Row>, from: int, last: int)
    requires Contiguous(rows, from)
    ensures Delete(rows, last) == rows[Clamp(last + 1 - from, 0, |rows|)..]
    decreases |rows|
  {
    if rows != [] {
      DeleteIsDrop(rows[1..], from + 1, last);
      if rows[0].sequence > last {
        assert Delete(rows, last) == [rows[0]] + rows[1..] == rows;
      } else {
        var k := Clamp(last + 1 - from, 0, |rows|);
        assert Delete(rows, last) == rows[1..][k - 1..] == rows[k..];
      }
    }
  }

  lemma RowsContiguous(full: seq<Bytes>, from: nat)
    requires 0 < from <= |full| + 1
    ensures Contiguous(Rows(full, from), from)
  {}

  // ---- One append ----

  lemma InsertedCounted(log: Log, full: seq<Bytes>, payload: Bytes)
    requires Counted(log, full)
    ensures Counted(Inserted(log, payload), full + [payload])
  {
    SizeAdds(log.rows, [Row(log.next, payload)]);
  }

  lemma PendingStays(env: Env, full: seq<Bytes>, more: seq<Bytes>, pending: map<Effect, string>)
    requires PendingRecorded(env, full, pending)
    ensures PendingRecorded(env, full + more, pending)
  {
    forall n | n in pending ensures HasIntent(env, full + more, n, pending[n]) {
      assert HasIntent(env, full, n, pending[n]);
      var i :| 0 <= i < |full| && IntentFor(env, full[i], n, pending[n]);
      assert (full + more)[i] == full[i];
    }
  }

  lemma AppendSound(env: Env, log: Log, full: seq<Bytes>, event: Event, reserve: bool, operation: string, d: Draw)
    requires RoundTrips(env.json) && Sound(env, log, full) && CanAppend(env, log, event, reserve, operation, d)
    ensures var p := PayloadOf(env, log, event, operation, d);
            && Sound(env, Inserted(log, p), full + [p])
            && env.json.decode(p) == Some(Record(1, env.store, log.next, d.instance, operation, d.wall, event))
  {
    var p := PayloadOf(env, log, event, operation, d);
    InsertedCounted(log, full, p);
    PendingStays(env, full, [p], log.pending);
  }

  // ---- Whole operations ----

  datatype Op =
    | BatchOp(entries: seq<(Event, Draw)>, storage: bool)
    | RepairOp(event: Event, d: Draw, disk: Disk)
    | IntentOp(kind: Kind, target: Option<Reference>, reserve: bool, actor: Option<Reference>, d: Draw, disk: Disk)
    | ResultOp(kind: Kind, operation: Option<string>, success: bool, d: Draw, disk: Disk)
    | RetentionOp(through: nat, d: Draw, storage: bool)
    | PruneOp(through: nat, apply: bool, d: Draw, storage: bool)
    | RecoverOp(d: Draw, storage: bool)

  function Next(env: Env, log: Log, op: Op): Log {
    match op
    case BatchOp(entries, storage) => Batch(env, log, entries, storage).0
    case RepairOp(event, d, disk) => Repair(env, log, event, d, disk)
    case IntentOp(kind, target, reserve, actor, d, disk) =>
      EffectIntent(env, log, kind, target, reserve, actor, d, disk).0
    case ResultOp(kind, operation, success, d, disk) =>
      EffectResult(env, log, kind, operation, success, d, disk)
    case RetentionOp(through, d, storage) => SetRetention(env, log, through, d, storage).0
    case PruneOp(through, apply, d, storage) => PruneBatch(env, log, through, apply, d, storage).0
    case RecoverOp(d, storage) => Recover(env, log, d, storage).0
  }

  /** The history after a step: what was inserted is at the end of the table. */
  function Extended(full: seq<Bytes>, before: Log, after: Log): seq<Bytes> {
    var added := after.next - before.next;
    if 0 <= added <= |after.rows| then full + Payloads(after.rows[|after.rows| - added..]) else full
  }

  lemma ExtendedGrows(full: seq<Bytes>, before: Log, after: Log)
    ensures full <= Extended(full, before, after)
  {}

  lemma ExtendedByOne(full: seq<Bytes>, before: Log, mid: Log, payload: Bytes, after: Log)
    requires mid.next == before.next
    requires after.next == mid.next + 1 && after.rows == mid.rows + [Row(mid.next, payload)]
    ensures Extended(full, before, after) == full + [payload]
  {
    assert after.rows[|after.rows| - 1..] == [Row(mid.next, payload)];
  }

  lemma ExtendedByNone(full: seq<Bytes>, before: Log, after: Log)
    requires after.next == before.next
    ensures Extended(full, before, after) == full
  {
    assert after.rows[|after.rows|..] == [];
  }

  lemma {:induction false} AppendAllSound(env: Env, log: Log, full: seq<Bytes>, entries: seq<(Event, Draw)>)
    requires RoundTrips(env.json) && Sound(env, log, full) && AppendAll(env, log, entries).Some?
    ensures var next := AppendAll(env, log, entries).value;
            && next.next == log.next + |entries| && |entries| <= |next.rows|
            && next.degraded == log.degraded && next.pending == log.pending && next.from == log.from
            && Sound(env, next, Extended(full, log, next))
    decreases |entries|
  {
    hide Sound, CanAppend;
    if entries == [] {
      ExtendedByNone(full, log, log);
    } else {
      var rest := entries[..|entries| - 1];
      AppendAllSound(env, log, full, rest);
      var mid := AppendAll(env, log, rest).value;
      var (event, d) := entries[|entries| - 1];
      AppendSound(env, mid, Extended(full, log, mid), event, false, d.operation, d);
      var p := PayloadOf(env, mid, event, d.operation, d);
      var next := Inserted(mid, p);
      assert next.rows[|next.rows| - |entries|..] == mid.rows[|mid.rows| - |rest|..] + [Row(mid.next, p)];
      assert Extended(full, log, next) == Extended(full, log, mid) + [p];
    }
  }

  lemma MarkedSound(env: Env, log: Log, full: seq<Bytes>, mark: bool)
    requires Sound(env, log, full)
    ensures Sound(env, Marked(log, mark), full) && Extended(full, log, Marked(log, mark)) == full
  {
    ExtendedByNone(full, log, Marked(log, mark));
  }

  lemma BatchSound(env: Env, log: Log, full: seq<Bytes>, entries: seq<(Event, Draw)>, storage: bool)
    requires RoundTrips(env.json) && Sound(env, log, full)
    ensures var next := Batch(env, log, entries, storage).0; Sound(env, next, Extended(full, log, next))
  {
    ExtendedByNone(full, log, log);
    if |entries| <= BATCH && AppendAll(env, log, entries).Some? {
      AppendAllSound(env, log, full, entries);
    }
  }

  lemma RepairSound(env: Env, log: Log, full: seq<Bytes>, event: Event, d: Draw, disk: Disk)
    requires RoundTrips(env.json) && Sound(env, log, full)
    ensures var next := Repair(env, log, event, d, disk); Sound(env, next, Extended(full, log, next))
  {
    hide Sound, CanAppend;
    ExtendedByNone(full, log, log);
    MarkedSound(env, log, full, disk.mark);
    if CanAppend(env, log, event, true, d.operation, d) {
      AppendSound(env, log, full, event, true, d.operation, d);
      var p := PayloadOf(env, log, event, d.operation, d);
      ExtendedByOne(full, log, log, p, Inserted(log, p));
    }
  }

  lemma IntentRecorded(env: Env, full: seq<Bytes>, p: Bytes, pending: map<Effect, string>, name: Effect,
                       operation: string)
    requires PendingRecorded(env, full + [p], pending) && IntentFor(env, p, name, operation)
    ensures PendingRecorded(env, full + [p], pending[name := operation])
  {
    assert (full + [p])[|full|] == p;
    assert HasIntent(env, full + [p], name, operation);
  }

  lemma IntentKept(env: Env, log: Log, full: seq<Bytes>, p: Bytes, name: Effect, operation: string)
    requires Sound(env, log, full + [p]) && IntentFor(env, p, name, operation)
    requires name !in log.pending && |log.pending| < PENDING_LIMIT
    ensures Sound(env, log.(pending := log.pending[name := operation]), full + [p])
  {
    IntentRecorded(env, full, p, log.pending, name, operation);
    var after := log.(pending := log.pending[name := operation]);
    assert |after.pending| == |log.pending| + 1;
    assert Counted(after, full + [p]);
  }

  lemma NewIntentSound(env: Env, log: Log, full: seq<Bytes>, name: Effect, event: Event, reserve: bool, d: Draw)
    requires RoundTrips(env.json) && Sound(env, log, full) && CanAppend(env, log, event, reserve, d.operation, d)
    requires name !in log.pending && |log.pending| < PENDING_LIMIT
    requires event.stage == Intent && name == Effect(event.kind, event.targetReference)
    ensures var after := Inserted(log, PayloadOf(env, log, event, d.operation, d))
                           .(pending := log.pending[name := d.operation]);
            Sound(env, after, Extended(full, log, after))
  {
    AppendSound(env, log, full, event, reserve, d.operation, d);
    var p := PayloadOf(env, log, event, d.operation, d);
    ExtendedByOne(full, log, log, p, Inserted(log, p).(pending := log.pending[name := d.operation]));
    IntentKept(env, Inserted(log, p), full, p, name, d.operation);
  }

  lemma IntentSound(env: Env, log: Log, full: seq<Bytes>, kind: Kind, target: Option<Reference>, reserve: bool,
                    actor: Option<Reference>, d: Draw, disk: Disk)
    requires RoundTrips(env.json) && Sound(env, log, full)
    ensures var next := EffectIntent(env, log, kind, target, reserve, actor, d, disk).0;
            Sound(env, next, Extended(full, log, next))
  {
    hide Sound, CanAppend;
    ExtendedByNone(full, log, log);
    MarkedSound(env, log, full, disk.mark);
    var name, event := Effect(kind, target), IntentEvent(kind, target, actor);
    if name !in log.pending && |log.pending| < PENDING_LIMIT && CanAppend(env, log, event, reserve, d.operation, d) {
      NewIntentSound(env, log, full, name, event, reserve, d);
    }
  }

  lemma SettledIsSmaller(pending: map<Effect, string>, operation: string)
    ensures |Settled(pending, operation)| <= |pending|
  {
    var keys := Settled(pending, operation).Keys;
    SubsetSize(keys, pending.Keys);
    assert |Settled(pending, operation)| == |keys| && |pending| == |pending.Keys|;
  }

  lemma SettledSound(env: Env, log: Log, full: seq<Bytes>, operation: string)
    requires Sound(env, log, full)
    ensures Sound(env, log.(pending := Settled(log.pending, operation)), full)
  {
    SettledIsSmaller(log.pending, operation);
    assert Counted(log.(pending := Settled(log.pending, operation)), full);
  }

  lemma ResultSound(env: Env, log: Log, full: seq<Bytes>, kind: Kind, operation: Option<string>, success: bool, d: Draw,
                    disk: Disk)
    requires RoundTrips(env.json) && Sound(env, log, full)
    ensures var next := EffectResult(env, log, kind, operation, success, d, disk);
            Sound(env, next, Extended(full, log, next))
  {
    hide Sound, CanAppend;
    ExtendedByNone(full, log, log);
    MarkedSound(env, log, full, disk.mark);
    if operation.Some? && CanAppend(env, log, ResultEvent(kind, success), true, operation.value, d) && disk.Commits() {
      var p := PayloadOf(env, log, ResultEvent(kind, success), operation.value, d);
      AppendSound(env, log, full, ResultEvent(kind, success), true, operation.value, d);
      SettledSound(env, Inserted(log, p), full + [p], operation.value);
      ExtendedByOne(full, log, log, p, EffectResult(env, log, kind, operation, success, d, disk));
    }
  }

  lemma RetentionSound(env: Env, log: Log, full: seq<Bytes>, through: nat, d: Draw, storage: bool)
    requires RoundTrips(env.json) && Sound(env, log, full)
    ensures var next := SetRetention(env, log, through, d, storage).0; Sound(env, next, Extended(full, log, next))
  {
    ExtendedByNone(full, log, log);
    var mid, event := log.(through := through, policy := log.policy + 1), RetentionEvent(log, through);
    if through < log.next && CanAppend(env, mid, event, true, d.operation, d) && storage {
      AppendSound(env, mid, full, event, true, d.operation, d);
      var p := PayloadOf(env, mid, event, d.operation, d);
      ExtendedByOne(full, log, mid, p, Inserted(mid, p));
    }
  }

  /** The batch is the oldest `min(256, through + 1 - from)` rows. */
  lemma PrunedRows(log: Log, full: seq<Bytes>, through: nat)
    requires Counted(log, full) && through < log.next
    ensures var batch := Query(log.rows, -1, through, BATCH);
            && |batch| == Clamp(through + 1 - log.from, 0, BATCH) && |batch| <= |log.rows|
            && batch == log.rows[..|batch|]
  {
    RowsContiguous(full, log.from);
    QueryIsSlice(log.rows, log.from, -1, through, BATCH);
  }

  /** Deleting the oldest rows keeps the counters exact. */
  lemma PrunedCounted(log: Log, full: seq<Bytes>, batch: seq<Row>)
    requires Counted(log, full) && 0 < |batch| <= |log.rows| && batch == log.rows[..|batch|]
    ensures batch[|batch| - 1].sequence == log.from + |batch| - 1
    ensures Counted(Pruned(log, batch), full) && Pruned(log, batch).from == log.from + |batch|
  {
    var k, last := |batch|, batch[|batch| - 1].sequence;
    assert batch[k - 1] == Rows(full, log.from)[k - 1];
    RowsContiguous(full, log.from);
    DeleteIsDrop(log.rows, log.from, last);
    RowsDrop(full, log.from, k);
    SizeSplits(log.rows, k);
  }

  lemma PrunedSound(env: Env, log: Log, full: seq<Bytes>, through: nat)
    requires Sound(env, log, full) && through < log.next
    ensures var batch := Query(log.rows, -1, through, BATCH);
            batch != [] ==> Sound(env, Pruned(log, batch), full)
  {
    PrunedRows(log, full, through);
    var batch := Query(log.rows, -1, through, BATCH);
    if batch != [] {
      PrunedCounted(log, full, batch);
      SizeSplits(log.rows, |batch|);
    }
  }

  lemma PruneSound(env: Env, log: Log, full: seq<Bytes>, through: nat, apply: bool, d: Draw, storage: bool)
    requires RoundTrips(env.json) && Sound(env, log, full)
    ensures var next := PruneBatch(env, log, through, apply, d, storage).0; Sound(env, next, Extended(full, log, next))
  {
    ExtendedByNone(full, log, log);
    var batch := Query(log.rows, -1, through, BATCH);
    if through <= log.through && apply && batch != [] {
      PrunedSound(env, log, full, through);
      var mid, event := Pruned(log, batch), PruneEvent(log, |batch|, batch[|batch| - 1].sequence);
      if CanAppend(env, mid, event, true, d.operation, d) && storage {
        AppendSound(env, mid, full, event, true, d.operation, d);
        var p := PayloadOf(env, mid, event, d.operation, d);
        ExtendedByOne(full, log, mid, p, Inserted(mid, p));
      }
    }
  }

  lemma RecoverSound(env: Env, log: Log, full: seq<Bytes>, d: Draw, storage: bool)
    requires RoundTrips(env.json) && Sound(env, log, full)
    ensures var next := Recover(env, log, d, storage).0; Sound(env, next, Extended(full, log, next))
  {
    ExtendedByNone(full, log, log);
    var event := RECOVERY;
    if CanAppend(env, log, event, true, d.operation, d) {
      AppendSound(env, log, full, event, true, d.operation, d);
      var p := PayloadOf(env, log, event, d.operation, d);
      ExtendedByOne(full, log, log, p, Inserted(log, p).(degraded := false));
    }
  }

  lemma StepSound(env: Env, log: Log, full: seq<Bytes>, op: Op)
    requires RoundTrips(env.json) && Sound(env, log, full)
    ensures Sound(env, Next(env, log, op), Extended(full, log, Next(env, log, op)))
  {
    match op
    case BatchOp(entries, storage) => BatchSound(env, log, full, entries, storage);
    case RepairOp(event, d, disk) => RepairSound(env, log, full, event, d, disk);
    case IntentOp(kind, target, reserve, actor, d, disk) =>
      IntentSound(env, log, full, kind, target, reserve, actor, d, disk);
    case ResultOp(kind, operation, success, d, disk) =>
      ResultSound(env, log, full, kind, operation, success, d, disk);
    case RetentionOp(through, d, storage) => RetentionSound(env, log, full, through, d, storage);
    case PruneOp(through, apply, d, storage) => PruneSound(env, log, full, through, apply, d, storage);
    case RecoverOp(d, storage) => RecoverSound(env, log, full, d, storage);
  }

  // ---- Runs ----

  /** The log and the whole history after the operations of a run. */
  function Run(env: Env, log: Log, full: seq<Bytes>, ops: seq<Op>): (Log, seq<Bytes>)
    decreases |ops|
  {
    if ops == [] then (log, full)
    else Run(env, Next(env, log, ops[0]), Extended(full, log, Next(env, log, ops[0])), ops[1..])
  }

  /** From any sound log, in particular the empty one, every run keeps the log sound and only ever adds records. */
  lemma {:induction false} RunSound(env: Env, log: Log, full: seq<Bytes>, ops: seq<Op>)
    requires RoundTrips(env.json) && Sound(env, log, full)
    ensures var (after, history) := Run(env, log, full, ops);
            Sound(env, after, history) && full <= history
    decreases |ops|
  {
    if ops != [] {
      StepSound(env, log, full, ops[0]);
      RunSound(env, Next(env, log, ops[0]), Extended(full, log, Next(env, log, ops[0])), ops[1..]);
    }
  }

  // ---- What follows for whole runs ----

  lemma RowIs(log: Log, full: seq<Bytes>, i: nat)
    requires Counted(log, full) && i < |log.rows|
    ensures |log.rows| == log.next - log.from && log.from + i - 1 < |full|
    ensures log.rows[i] == Row(log.from + i, full[log.from + i - 1])
  {
    assert log.rows[i] == Rows(full, log.from)[i];
  }

  /** The table holds exactly `from..next` of the history, the counters are its size, and the quotas hold. */
  ghost predicate Exact(env: Env, log: Log, full: seq<Bytes>) {
    && 1 <= log.from <= log.next == |full| + 1
    && |log.rows| == log.next - log.from == log.events <= MAX_EVENTS
    && log.bytes == Size(log.rows) <= MAX_BYTES
    && forall i | 0 <= i < |log.rows| ::
         log.rows[i] == Row(log.from + i, full[log.from + i - 1]) && Bound(env, log.rows[i].payload, log.from + i)
  }

  lemma SoundIsExact(env: Env, log: Log, full: seq<Bytes>)
    requires Sound(env, log, full)
    ensures Exact(env, log, full)
  {
    forall i | 0 <= i < |log.rows|
      ensures log.rows[i] == Row(log.from + i, full[log.from + i - 1]) && Bound(env, log.rows[i].payload, log.from + i)
    {
      RowIs(log, full, i);
      assert Bound(env, full[log.from + i - 1], log.from + i);
    }
  }

  lemma StartSound(env: Env)
    ensures Sound(env, EMPTY_LOG, [])
  {}

  /** Every state reachable from the empty log is exact. */
  lemma ReachableLogIsExact(env: Env, ops: seq<Op>)
    requires RoundTrips(env.json)
    ensures Exact(env, Run(env, EMPTY_LOG, [], ops).0, Run(env, EMPTY_LOG, [], ops).1)
  {
    StartSound(env);
    RunSound(env, EMPTY_LOG, [], ops);
    SoundIsExact(env, Run(env, EMPTY_LOG, [], ops).0, Run(env, EMPTY_LOG, [], ops).1);
  }

  lemma SameRows(log: Log, full: seq<Bytes>, after: Log, history: seq<Bytes>, i: nat)
    requires Counted(log, full) && Counted(after, history) && full <= history && i < |log.rows|
    ensures log.rows[i].sequence >= after.from ==> log.rows[i] in after.rows
    ensures forall j | 0 <= j < |after.rows| && after.rows[j].sequence == log.rows[i].sequence ::
            after.rows[j] == log.rows[i]
  {
    RowIs(log, full, i);
    if log.rows[i].sequence >= after.from {
      var j := log.rows[i].sequence - after.from;
      assert |after.rows| == |Rows(history, after.from)| == |history| + 1 - after.from;
      RowIs(after, history, j);
      assert after.rows[j] == log.rows[i];
    }
    forall j | 0 <= j < |after.rows| && after.rows[j].sequence == log.rows[i].sequence
        ensures after.rows[j] == log.rows[i] {
      RowIs(after, history, j);
    }
  }

  /** A record is never altered and never comes back: it is there as long as its sequence is not below `from`. */
  lemma RecordsNeverChange(env: Env, log: Log, full: seq<Bytes>, ops: seq<Op>, i: nat)
    requires RoundTrips(env.json) && Sound(env, log, full) && i < |log.rows|
    ensures var (after, _) := Run(env, log, full, ops);
            && (log.rows[i].sequence >= after.from ==> log.rows[i] in after.rows)
            && (forall j | 0 <= j < |after.rows| && after.rows[j].sequence == log.rows[i].sequence ::
               after.rows[j] == log.rows[i])
  {
    RunSound(env, log, full, ops);
    var (after, history) := Run(env, log, full, ops);
    SameRows(log, full, after, history, i);
  }

  lemma OnlyPruneRemoves(env: Env, log: Log, full: seq<Bytes>, op: Op)
    requires RoundTrips(env.json) && Sound(env, log, full) && !op.PruneOp?
    ensures Next(env, log, op).from == log.from
  {
    if op.BatchOp? && AppendAll(env, log, op.entries).Some? {
      AppendAllSound(env, log, full, op.entries);
    }
  }

  lemma PruneEffect(env: Env, log: Log, full: seq<Bytes>, through: nat, apply: bool, d: Draw, storage: bool)
    requires RoundTrips(env.json) && Sound(env, log, full)
             && PruneBatch(env, log, through, apply, d, storage).0.from != log.from
    ensures var after, count := PruneBatch(env, log, through, apply, d, storage).0,
            Clamp(through + 1 - log.from, 0, BATCH);
            && apply && through <= log.through && after.from == log.from + count
            && after.rows != [] && after.next == log.next + 1
            && var event := PruneEvent(log, count, after.from - 1);
               after.rows[|after.rows| - 1].payload == PayloadOf(env, log, event, d.operation, d)
  {
    PrunedRows(log, full, through);
    var batch := Query(log.rows, -1, through, BATCH);
    PrunedCounted(log, full, batch);
  }

  /**
   * Records disappear only by `prune`, at most 256 at a time, within the permission stored before, leaving a
   * marker that says how many.
   */
  lemma PruningIsPermittedAndMarked(env: Env, log: Log, full: seq<Bytes>, op: Op)
    requires RoundTrips(env.json) && Sound(env, log, full) && Next(env, log, op).from != log.from
    ensures op.PruneOp? && op.apply && op.through <= log.through
    ensures var after := Next(env, log, op);
            && after.from == log.from + Clamp(op.through + 1 - log.from, 0, BATCH) && after.next == log.next + 1
            && after.rows != []
            && var marker := env.json.decode(after.rows[|after.rows| - 1].payload);
               marker.Some? && marker.value.event == PruneEvent(log, after.from - log.from, after.from - 1)
  {
    if op.PruneOp? {
      PruneEffect(env, log, full, op.through, op.apply, op.d, op.storage);
    } else {
      OnlyPruneRemoves(env, log, full, op);
    }
  }

  // ---- Exports ----

  /** An allowed export is the next stretch of the history, up to the limit or the declared boundary. */
  lemma ExportIsExact(env: Env, log: Log, full: seq<Bytes>, store: string, after: nat, upper: nat, limit: nat)
    requires Sound(env, log, full) && CursorAllowed(env, log, store, after, upper, limit)
    ensures after <= upper <= |full|
    ensures Exported(env, log, store, after, upper, limit) == Some(full[after..Clamp(after + limit, after, upper)])
  {
    hide Query, AllBound, PendingRecorded;
    RowsContiguous(full, log.from);
    QueryIsSlice(log.rows, log.from, after, upper, limit);
    var lo, hi := after + 1 - log.from, upper + 1 - log.from;
    var rows := log.rows[lo..Clamp(lo + limit, lo, hi)];
    assert rows == Query(log.rows, after, upper, limit);
    var want := full[after..Clamp(after + limit, after, upper)];
    assert |rows| == |want|;
    forall i | 0 <= i < |rows| ensures Payloads(rows)[i] == want[i] {
      RowIs(log, full, lo + i);
    }
    assert Payloads(rows) == want;
  }

  function Joined(page: seq<Bytes>, rest: Option<seq<Bytes>>): Option<seq<Bytes>> {
    if rest.None? then None else Some(page + rest.value)
  }

  /** Exports of later and later states, each continuing at the cursor the previous one reported. */
  function Collect(exporting: (Log, nat) -> Option<seq<Bytes>>, logs: seq<Log>, after: nat): Option<seq<Bytes>>
    decreases |logs|
  {
    if logs == [] then Some([])
    else
      match exporting(logs[0], after)
      case None => None
      case Some(page) => Joined(page, Collect(exporting, logs[1..], after + |page|))
  }

  function Cursor(after: nat, upper: nat, limit: nat, i: nat): int
    requires after <= upper
  {
    Clamp(after + i * limit, after, upper)
  }

  /** No prune has passed the cursor of any of the exports. */
  predicate NeverPassed(logs: seq<Log>, after: nat, upper: nat, limit: nat)
    requires after <= upper
  {
    forall i | 0 <= i < |logs| :: logs[i].from <= Cursor(after, upper, limit, i) + 1
  }

  /** One export gives the next stretch, unless a prune has passed its cursor. */
  ghost predicate Pages(exporting: (Log, nat) -> Option<seq<Bytes>>, log: Log, full: seq<Bytes>, upper: nat,
                        limit: nat) {
    && upper <= |full|
    && forall c: nat {:trigger exporting(log, c)} | c <= upper ::
         exporting(log, c) == if log.from <= c + 1 then Some(full[c..Clamp(c + limit, c, upper)]) else None
  }

  ghost predicate Growing(fulls: seq<seq<Bytes>>) {
    forall i, j | 0 <= i <= j < |fulls| :: fulls[i] <= fulls[j]
  }

  lemma {:induction false} PagesJoin(exporting: (Log, nat) -> Option<seq<Bytes>>, logs: seq<Log>,
                                     fulls: seq<seq<Bytes>>, after: nat, upper: nat, limit: nat)
    requires |logs| == |fulls| > 0 && Growing(fulls) && forall i | 0 <= i < |logs| ::
             Pages(exporting, logs[i], fulls[i], upper, limit)
    requires limit >= 1 && after <= upper
    ensures upper <= |fulls[0]|
    ensures Collect(exporting, logs, after).Some? <==> NeverPassed(logs, after, upper, limit)
    ensures var out := Collect(exporting, logs, after);
            out.Some? ==> out.value == fulls[0][after..Cursor(after, upper, limit, |logs|)]
    decreases |logs|
  {
    assert Pages(exporting, logs[0], fulls[0], upper, limit);
    var next := Cursor(after, upper, limit, 1);
    CursorsShift(logs, after, upper, limit);
    if logs[0].from <= after + 1 {
      var page := fulls[0][after..next];
      assert exporting(logs[0], after) == Some(page) && |page| == next - after;
      CollectFirst(exporting, logs, after, page);
      if |logs| > 1 {
        PagesJoin(exporting, logs[1..], fulls[1..], next, upper, limit);
        CursorsContinue(after, upper, limit, |logs| - 1);
        SlicesJoin(fulls[0], fulls[1], after, next, Cursor(after, upper, limit, |logs|));
      }
    }
  }

  lemma CollectFirst(exporting: (Log, nat) -> Option<seq<Bytes>>, logs: seq<Log>, after: nat, page: seq<Bytes>)
    requires logs != [] && exporting(logs[0], after) == Some(page)
    ensures Collect(exporting, logs, after) == Joined(page, Collect(exporting, logs[1..], after + |page|))
    ensures |logs| == 1 ==> Collect(exporting, logs, after) == Some(page)
  {
    hide Joined;
    if |logs| == 1 {
      assert Collect(exporting, logs[1..], after + |page|) == Some([]);
      JoinedLast(page);
    }
  }

  lemma JoinedLast(page: seq<Bytes>)
    ensures Joined(page, Some([])) == Some(page)
  {
    assert page + [] == page;
  }

  lemma SlicesJoin(full: seq<Bytes>, later: seq<Bytes>, after: nat, next: nat, end: nat)
    requires full <= later && after <= next <= end <= |full|
    ensures full[after..next] + later[next..end] == full[after..end]
  {}

  lemma CursorsContinue(after: nat, upper: nat, limit: nat, i: nat)
    requires after <= upper && limit >= 1
    ensures Cursor(after, upper, limit, i + 1) == Cursor(Cursor(after, upper, limit, 1), upper, limit, i)
  {
    assert (i + 1) * limit == i * limit + limit;
    assert 0 <= i * limit;
  }

  lemma CursorsShift(logs: seq<Log>, after: nat, upper: nat, limit: nat)
    requires after <= upper && limit >= 1 && |logs| > 0
    ensures NeverPassed(logs, after, upper, limit)
            <==> logs[0].from <= after + 1 && NeverPassed(logs[1..], Cursor(after, upper, limit, 1), upper, limit)
  {
    var next := Cursor(after, upper, limit, 1);
    forall i: nat | i < |logs| - 1
      ensures logs[1..][i] == logs[i + 1] && Cursor(next, upper, limit, i) == Cursor(after, upper, limit, i + 1)
    {
      CursorsContinue(after, upper, limit, i);
    }
    assert Cursor(after, upper, limit, 0) == after;
    if NeverPassed(logs, after, upper, limit) {
      assert logs[0].from <= Cursor(after, upper, limit, 0) + 1;
      forall i | 0 <= i < |logs[1..]| ensures logs[1..][i].from <= Cursor(next, upper, limit, i) + 1 {
        assert logs[i + 1].from <= Cursor(after, upper, limit, i + 1) + 1;
      }
    }
    if logs[0].from <= after + 1 && NeverPassed(logs[1..], next, upper, limit) {
      forall i | 0 <= i < |logs| ensures logs[i].from <= Cursor(after, upper, limit, i) + 1 {
        if i > 0 {
          assert logs[1..][i - 1].from <= Cursor(next, upper, limit, i - 1) + 1;
        }
      }
    }
  }

  function Exporter(env: Env, upper: nat, limit: nat): (Log, nat) -> Option<seq<Bytes>> {
    (log: Log, c: nat) => Exported(env, log, env.store, c, upper, limit)
  }

  /**
   * Chained exports of the states of one run give every record of the range once and in order, or
   * one of them is refused; and that happens exactly when a prune has passed the cursor in between.
   */
  lemma ChainedExports(env: Env, logs: seq<Log>, fulls: seq<seq<Bytes>>, after: nat, upper: nat, limit: nat)
    requires |logs| == |fulls| > 0 && Growing(fulls) && forall i | 0 <= i < |logs| :: Sound(env, logs[i], fulls[i])
    requires 1 <= limit <= 10_000 && after <= upper < logs[0].next
    ensures upper <= |fulls[0]|
    ensures var out := Collect(Exporter(env, upper, limit), logs, after);
            && (out.Some? <==> NeverPassed(logs, after, upper, limit))
            && (out.Some? ==> out.value == fulls[0][after..Cursor(after, upper, limit, |logs|)])
  {
    var exporting := Exporter(env, upper, limit);
    assert Sound(env, logs[0], fulls[0]);
    forall i | 0 <= i < |logs| ensures Pages(exporting, logs[i], fulls[i], upper, limit) {
      assert fulls[0] <= fulls[i] && Sound(env, logs[i], fulls[i]);
      ExportPages(env, logs[i], fulls[i], upper, limit);
    }
    PagesJoin(exporting, logs, fulls, after, upper, limit);
  }

  lemma ExportPages(env: Env, log: Log, full: seq<Bytes>, upper: nat, limit: nat)
    requires Sound(env, log, full) && upper <= |full| && 1 <= limit <= 10_000
    ensures Pages(Exporter(env, upper, limit), log, full, upper, limit)
  {
    forall c: nat | c <= upper
      ensures var page := full[c..Clamp(c + limit, c, upper)];
              Exported(env, log, env.store, c, upper, limit) == if log.from <= c + 1 then Some(page) else None
    {
      if log.from <= c + 1 {
        ExportIsExact(env, log, full, env.store, c, upper, limit);
      }
    }
  }

  // ---- Capacity ----

  /**
   * The reported capacity is exact: it holds just when a record of any permitted size still fits without the
   * reserve.
   */
  lemma AdmissionCapacityIsExact(log: Log)
    ensures AdmissionCapacity(log) <==> !log.degraded && forall size: nat | size <= MAX_EVENT_BYTES ::
            Fits(log, size, false)
  {
    if forall size: nat | size <= MAX_EVENT_BYTES :: Fits(log, size, false) {
      assert Fits(log, MAX_EVENT_BYTES, false);
    }
  }

  /** So with reported capacity the next ordinary record is accepted, short of an exhausted sequence. */
  lemma AdmissionMeansAppend(env: Env, log: Log, full: seq<Bytes>, event: Event, d: Draw)
    requires Sound(env, log, full) && AdmissionCapacity(log) && log.next < I64_MAX
    requires |PayloadOf(env, log, event, d.operation, d)| <= MAX_EVENT_BYTES
    ensures Append(env, log, event, false, d).Some?
  {
    AdmissionCapacityIsExact(log);
  }

  /**
   * `recover` reopens the log but does not promise that an ordinary record still fits: its own
   * record is paid from the room it has just checked, so the report turns green exactly when that
   * room was left over.
   */
  lemma RecoveryAdmits(env: Env, log: Log, d: Draw, storage: bool)
    requires Recover(env, log, d, storage).1
    ensures var after := Recover(env, log, d, storage).0;
            && !after.degraded
            && (AdmissionCapacity(after) <==>
                  log.bytes + |PayloadOf(env, log, RECOVERY, d.operation, d)| + MAX_EVENT_BYTES
                  <= MAX_BYTES - RESERVE_BYTES)
  {}

  // ---- The reserve ----

  /** What the ordinary quotas leave free. */
  predicate ReserveFree(log: Log, records: nat) {
    log.events + records <= MAX_EVENTS && log.bytes + records * MAX_EVENT_BYTES <= MAX_BYTES
      && log.next + records <= I64_MAX
  }

  /** Ordinary recording never touches the reserve. */
  lemma OrdinaryKeepsReserve(env: Env, log: Log, event: Event, d: Draw)
    requires Append(env, log, event, false, d).Some? && log.next + 1 + RESERVE_EVENTS <= I64_MAX
    ensures ReserveFree(Append(env, log, event, false, d).value, RESERVE_EVENTS)
  {
    assert RESERVE_EVENTS * MAX_EVENT_BYTES == RESERVE_BYTES;
  }

  /** Repairs one after another, with storage working. */
  function RepairAll(env: Env, log: Log, repairs: seq<(Event, Draw)>): Log
    decreases |repairs|
  {
    if repairs == [] then log else RepairAll(env, Repair(env, log, repairs[0].0, repairs[0].1, WORKING), repairs[1..])
  }

  /** The record of this event is within the size limit at every sequence there can be. */
  ghost predicate AlwaysFits(env: Env, event: Event, d: Draw) {
    forall sequence: nat | sequence <= I64_MAX ::
      |env.json.encode(RecordOf(env, sequence, event, d.operation, d))| <= MAX_EVENT_BYTES
  }

  /** The payloads of consecutive records. */
  function Recordings(env: Env, sequence: nat, repairs: seq<(Event, Draw)>): seq<Bytes> {
    seq(|repairs|, i requires 0 <= i < |repairs| =>
      env.json.encode(RecordOf(env, sequence + i, repairs[i].0, repairs[i].1.operation, repairs[i].1)))
  }

  lemma RecordingsFirst(env: Env, sequence: nat, repairs: seq<(Event, Draw)>)
    requires repairs != []
    ensures var (event, d) := repairs[0];
            var first := env.json.encode(RecordOf(env, sequence, event, d.operation, d));
            Recordings(env, sequence, repairs) == [first] + Recordings(env, sequence + 1, repairs[1..])
  {}

  /** Has the log gained exactly these records, at its end and without a mark? */
  ghost predicate Accumulates(env: Env, log: Log, full: seq<Bytes>, repairs: seq<(Event, Draw)>, after: Log) {
    && after.degraded == log.degraded && after.next == log.next + |repairs| && after.from == log.from
    && Sound(env, after, full + Recordings(env, log.next, repairs))
  }

  lemma AccumulatesFirst(env: Env, log: Log, full: seq<Bytes>, repairs: seq<(Event, Draw)>, after: Log)
    requires repairs != []
    requires var (event, d) := repairs[0];
             var p := PayloadOf(env, log, event, d.operation, d);
             Accumulates(env, Inserted(log, p), full + [p], repairs[1..], after)
    ensures Accumulates(env, log, full, repairs, after)
  {
    hide Sound;
    var (event, d) := repairs[0];
    var p := PayloadOf(env, log, event, d.operation, d);
    RecordingsFirst(env, log.next, repairs);
    assert full + [p] + Recordings(env, log.next + 1, repairs[1..]) == full + Recordings(env, log.next, repairs);
  }

  lemma RoomForOne(log: Log, records: nat)
    requires ReserveFree(log, records) && records > 0
    ensures log.events < MAX_EVENTS && log.bytes + MAX_EVENT_BYTES <= MAX_BYTES && log.next < I64_MAX
    ensures log.bytes + MAX_EVENT_BYTES + (records - 1) * MAX_EVENT_BYTES <= MAX_BYTES
  {}

  lemma OneFromReserve(env: Env, log: Log, full: seq<Bytes>, event: Event, d: Draw, records: nat)
    requires RoundTrips(env.json) && Sound(env, log, full) && ReserveFree(log, records) && records > 0
    requires AlwaysFits(env, event, d)
    ensures var after := Inserted(log, PayloadOf(env, log, event, d.operation, d));
            && Repair(env, log, event, d, WORKING) == after && ReserveFree(after, records - 1)
            && Sound(env, after, full + [PayloadOf(env, log, event, d.operation, d)])
  {
    RoomForOne(log, records);
    AppendSound(env, log, full, event, true, d.operation, d);
  }

  /**
   * The reserve is worth its number of records: as long as it is untouched, 1024 repairs of the
   * largest size are all recorded, in order, and none of them degrades the log.
   */
  lemma {:induction false} ReserveSuffices(env: Env, log: Log, full: seq<Bytes>, repairs: seq<(Event, Draw)>)
    requires RoundTrips(env.json) && Sound(env, log, full) && ReserveFree(log, |repairs|)
    requires forall r | r in repairs :: AlwaysFits(env, r.0, r.1)
    ensures Accumulates(env, log, full, repairs, RepairAll(env, log, repairs))
    decreases |repairs|
  {
    hide Sound;
    if repairs == [] {
      assert full + Recordings(env, log.next, repairs) == full;
    } else {
      hide AlwaysFits, RoundTrips, ReserveFree, Repair, Accumulates;
      var (event, d) := repairs[0];
      assert repairs[0] in repairs && AlwaysFits(env, event, d);
      OneFromReserve(env, log, full, event, d, |repairs|);
      var p := PayloadOf(env, log, event, d.operation, d);
      ReserveSuffices(env, Inserted(log, p), full + [p], repairs[1..]);
      AccumulatesFirst(env, log, full, repairs, RepairAll(env, log, repairs));
    }
  }

  // ---- No silent loss ----

  /** Record `i` of the history is that of this event and operation. */
  predicate RecordedAt(env: Env, history: seq<Bytes>, i: nat, event: Event, operation: string) {
    i < |history|
    && var r := env.json.decode(history[i]);
       r.Some? && r.value.event == event && r.value.operation == operation
  }

  /** The transaction of the repair goes through with the record, or with the mark in its place. */
  predicate Leaves(env: Env, log: Log, event: Event, d: Draw, disk: Disk) {
    disk.begins && disk.commit && ((disk.quota && CanAppend(env, log, event, true, d.operation, d)) || disk.mark)
  }

  /**
   * Afterwards the next record of the history is the one of this repair, or the log says that it is
   * degraded, exactly if it was degraded before or the transaction opens and commits and the record
   * fits or the mark can be written. The mark does not outlive a failed commit.
   */
  lemma RepairRecords(env: Env, log: Log, full: seq<Bytes>, event: Event, d: Draw, disk: Disk)
    requires RoundTrips(env.json) && Sound(env, log, full)
    ensures var next := Repair(env, log, event, d, disk);
            next.degraded || RecordedAt(env, Extended(full, log, next), |full|, event, d.operation)
            <==> log.degraded || Leaves(env, log, event, d, disk)
  {
    var next := Repair(env, log, event, d, disk);
    if disk.begins && disk.commit && disk.quota && CanAppend(env, log, event, true, d.operation, d) {
      var p := PayloadOf(env, log, event, d.operation, d);
      AppendSound(env, log, full, event, true, d.operation, d);
      ExtendedByOne(full, log, log, p, Inserted(log, p));
      assert (full + [p])[|full|] == p;
    } else {
      ExtendedByNone(full, log, next);
    }
  }

  /**
   * The result of an effect is the next record, or the log says that it is degraded, exactly if it was
   * so before, or the transaction commits, or the mark is written, which here is an update of its own.
   */
  lemma ResultRecords(env: Env, log: Log, full: seq<Bytes>, kind: Kind, operation: string, success: bool, d: Draw,
                      disk: Disk)
    requires RoundTrips(env.json) && Sound(env, log, full)
    ensures var event := ResultEvent(kind, success);
            var next := EffectResult(env, log, kind, Some(operation), success, d, disk);
            next.degraded || RecordedAt(env, Extended(full, log, next), |full|, event, operation)
            <==> log.degraded || disk.mark || (disk.Commits() && CanAppend(env, log, event, true, operation, d))
  {
    var event := ResultEvent(kind, success);
    var next := EffectResult(env, log, kind, Some(operation), success, d, disk);
    if disk.Commits() && CanAppend(env, log, event, true, operation, d) {
      var p := PayloadOf(env, log, event, operation, d);
      AppendSound(env, log, full, event, true, operation, d);
      ExtendedByOne(full, log, log, p, next);
      assert (full + [p])[|full|] == p;
    } else {
      ExtendedByNone(full, log, next);
    }
  }

  /** A failed commit takes the record and the mark with it, on the very first repair of a store. */
  lemma LostRepair(env: Env, event: Event, d: Draw)
    requires RoundTrips(env.json)
    ensures Sound(env, EMPTY_LOG, [])
    ensures Repair(env, EMPTY_LOG, event, d, WORKING.(commit := false)) == EMPTY_LOG
    ensures !EMPTY_LOG.degraded && Extended([], EMPTY_LOG, EMPTY_LOG) == []
  {
    StartSound(env);
    ExtendedByNone([], EMPTY_LOG, EMPTY_LOG);
  }

  lemma DegradedStays(env: Env, log: Log, full: seq<Bytes>, op: Op)
    requires RoundTrips(env.json) && Sound(env, log, full) && log.degraded && !op.RecoverOp?
    ensures Next(env, log, op).degraded
  {
    if op.BatchOp? && AppendAll(env, log, op.entries).Some? {
      AppendAllSound(env, log, full, op.entries);
    }
  }

  lemma {:induction false} DegradedRun(env: Env, log: Log, full: seq<Bytes>, ops: seq<Op>)
    requires RoundTrips(env.json) && Sound(env, log, full) && log.degraded && forall op | op in ops :: !op.RecoverOp?
    ensures Run(env, log, full, ops).0.degraded
    decreases |ops|
  {
    if ops != [] {
      StepSound(env, log, full, ops[0]);
      DegradedStays(env, log, full, ops[0]);
      DegradedRun(env, Next(env, log, ops[0]), Extended(full, log, Next(env, log, ops[0])), ops[1..]);
    }
  }

  /**
   * What a repair left is there to stay: until an operator recovers the log, the history has its record
   * at the place it was appended, or the log says that it is degraded, whatever else succeeds or fails.
   */
  lemma {:induction false} NoSilentLoss(env: Env, log: Log, full: seq<Bytes>, ops: seq<Op>, i: nat)
    requires RoundTrips(env.json) && Sound(env, log, full) && forall op | op in ops :: !op.RecoverOp?
    requires i < |ops| && ops[i].RepairOp?
    requires Leaves(env, Run(env, log, full, ops[..i]).0, ops[i].event, ops[i].d, ops[i].disk)
    ensures var (after, history) := Run(env, log, full, ops);
            var place := |Run(env, log, full, ops[..i]).1|;
            after.degraded || RecordedAt(env, history, place, ops[i].event, ops[i].d.operation)
    decreases |ops|
  {
    var next := Next(env, log, ops[0]);
    var more := Extended(full, log, next);
    StepSound(env, log, full, ops[0]);
    RunSound(env, next, more, ops[1..]);
    if i > 0 {
      assert ops[..i][1..] == ops[1..][..i - 1];
      NoSilentLoss(env, next, more, ops[1..], i - 1);
    } else {
      RepairRecords(env, log, full, ops[0].event, ops[0].d, ops[0].disk);
      if next.degraded {
        DegradedRun(env, next, more, ops[1..]);
      }
    }
  }

  // ---- Effects under way ----

  /** Does this step settle the operation? */
  predicate Settles(op: Op, operation: string) {
    op.ResultOp? && op.operation == Some(operation) && (op.success || op.kind == Export)
  }

  predicate PendingKept(before: map<Effect, string>, after: map<Effect, string>, name: Effect) {
    name in before ==> name in after && after[name] == before[name]
  }

  lemma ResultKeepsPending(env: Env, log: Log, op: Op, name: Effect)
    requires op.ResultOp? && name in log.pending && !Settles(op, log.pending[name])
    ensures PendingKept(log.pending, Next(env, log, op).pending, name)
  {}

  lemma StepKeepsPending(env: Env, log: Log, full: seq<Bytes>, op: Op, name: Effect)
    requires RoundTrips(env.json) && Sound(env, log, full)
    requires name in log.pending && !Settles(op, log.pending[name])
    ensures PendingKept(log.pending, Next(env, log, op).pending, name)
  {
    hide Sound, CanAppend;
    if op.ResultOp? {
      ResultKeepsPending(env, log, op, name);
    } else if op.BatchOp? && AppendAll(env, log, op.entries).Some? {
      AppendAllSound(env, log, full, op.entries);
    }
  }

  lemma {:induction false} RunKeepsPending(env: Env, log: Log, full: seq<Bytes>, ops: seq<Op>, name: Effect)
    requires RoundTrips(env.json) && Sound(env, log, full)
    requires name in log.pending && forall op | op in ops :: !Settles(op, log.pending[name])
    ensures var after := Run(env, log, full, ops).0; name in after.pending && after.pending[name] == log.pending[name]
    decreases |ops|
  {
    if ops != [] {
      StepKeepsPending(env, log, full, ops[0], name);
      StepSound(env, log, full, ops[0]);
      RunKeepsPending(env, Next(env, log, ops[0]), Extended(full, log, Next(env, log, ops[0])), ops[1..], name);
    }
  }

  /**
   * An effect keeps the operation of its first intent until a result settles it: asking again writes
   * nothing and answers with it, if only the transaction opens; if not, the mark is tried.
   */
  lemma EffectKeepsItsOperation(env: Env, log: Log, full: seq<Bytes>, ops: seq<Op>, again: Op)
    requires RoundTrips(env.json) && Sound(env, log, full) && again.IntentOp?
    requires Effect(again.kind, again.target) in log.pending
    requires forall op | op in ops :: !Settles(op, log.pending[Effect(again.kind, again.target)])
    ensures var after, disk := Run(env, log, full, ops).0, again.disk;
            var operation := log.pending[Effect(again.kind, again.target)];
            EffectIntent(env, after, again.kind, again.target, again.reserve, again.actor, again.d, disk)
            == if disk.begins then (after, Some(operation)) else (Marked(after, disk.mark), None)
  {
    RunKeepsPending(env, log, full, ops, Effect(again.kind, again.target));
  }

  /** A recorded success takes the operation out of the unresolved effects. */
  lemma SuccessSettles(env: Env, log: Log, kind: Kind, operation: string, d: Draw)
    ensures var after := EffectResult(env, log, kind, Some(operation), true, d, WORKING);
            after.degraded || forall n | n in after.pending :: after.pending[n] != operation
  {}
}
