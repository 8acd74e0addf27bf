/**
 * The transactions of crates/epochgrid-core/src/audit.rs, statement by statement. `log` holds the
 * rows the open transaction sees; a refused transaction puts the committed rows back.
 */
module AuditStore {
  import opened Prelude
  import opened Wire
  import opened Audit
  import opened AuditRuns

  /** The artifact of one export: the payload lines and the cursor of the completion record. */
  datatype Artifact = Artifact(lines: seq<Bytes>, cursor: nat)

  class AuditLog {
    const env: Env
    var log: Log
    ghost var full: seq<Bytes>

    ghost predicate Valid()
      reads this
    {
      RoundTrips(env.json) && Sound(env, log, full)
    }

    constructor (env: Env)
      requires RoundTrips(env.json)
      ensures Valid() && this.env == env && log == EMPTY_LOG && full == []
    {
      this.env := env;
      log := EMPTY_LOG;
      full := [];
      new;
      StartSound(env);
    }

    /** `append_operation`: one row and the counters, or nothing. */
    method AppendRow(event: Event, reserve: bool, operation: string, d: Draw) returns (ok: bool)
      modifies this`log
      ensures ok <==> AppendOperation(env, old(log), event, reserve, operation, d).Some?
      ensures log == if ok then AppendOperation(env, old(log), event, reserve, operation, d).value else old(log)
    {
      if !ValidReference(operation) || !Healthy(log) || (!reserve && log.degraded) || log.next >= I64_MAX {
        return false;
      }
      var sequence := log.next;
      var payload := env.json.encode(Record(1, env.store, sequence, d.instance, operation, d.wall, event));
      if |payload| > MAX_EVENT_BYTES || !Fits(log, |payload|, reserve) {
        return false;
      }
      log := log.(rows := log.rows + [Row(sequence, payload)]);
      log := log.(next := sequence + 1, events := log.events + 1, bytes := log.bytes + |payload|);
      return true;
    }

    method RecordBatch(entries: seq<(Event, Draw)>, storage: bool) returns (ok: bool)
      requires Valid()
      modifies this
      ensures Valid() && old(full) <= full
      ensures (log, ok) == Batch(env, old(log), entries, storage)
    {
      hide Sound;
      ghost var next := Batch(env, log, entries, storage).0;
      ghost var history := Extended(full, log, next);
      BatchSound(env, log, full, entries, storage);
      ExtendedGrows(full, log, next);
      ok := BatchRows(entries, storage);
      full := history;
    }

    method BatchRows(entries: seq<(Event, Draw)>, storage: bool) returns (ok: bool)
      modifies this`log
      ensures (log, ok) == Batch(env, old(log), entries, storage)
    {
      var committed := log;
      if |entries| > BATCH {
        return false;
      }
      ok := AppendEach(entries);
      if !ok || !storage {
        log := committed;
        ok := false;
      }
    }

    method AppendEach(entries: seq<(Event, Draw)>) returns (ok: bool)
      modifies this`log
      ensures ok <==> AppendAll(env, old(log), entries).Some?
      ensures ok ==> log == AppendAll(env, old(log), entries).value
    {
      ghost var before := log;
      for i := 0 to |entries|
        invariant AppendAll(env, before, entries[..i]) == Some(log)
      {
        assert entries[..i + 1][..i] == entries[..i];
        ok := AppendRow(entries[i].0, false, entries[i].1.operation, entries[i].1);
        if !ok {
          AppendAllFails(env, before, entries, i + 1);
          return false;
        }
      }
      assert entries[..|entries|] == entries;
      return true;
    }

    /** `audit_repair`: the next record is this one, or the mark is left, exactly when the disk allows one of them. */
    method RecordRepair(event: Event, d: Draw, disk: Disk)
      requires Valid()
      modifies this
      ensures Valid() && old(full) <= full
      ensures log == Repair(env, old(log), event, d, disk)
      ensures log.degraded || RecordedAt(env, full, |old(full)|, event, d.operation)
              <==> old(log).degraded || Leaves(env, old(log), event, d, disk)
    {
      hide Sound;
      ghost var next := Repair(env, log, event, d, disk);
      ghost var history := Extended(full, log, next);
      RepairSound(env, log, full, event, d, disk);
      RepairRecords(env, log, full, event, d, disk);
      ExtendedGrows(full, log, next);
      if disk.begins {
        var committed := log;
        RepairRows(event, d, disk);
        if !disk.commit {
          log := committed;
        }
      }
      full := history;
    }

    /** `repair`, in whatever transaction is open: the savepoint is rolled back, not what came before it. */
    method RepairRows(event: Event, d: Draw, disk: Disk)
      requires disk.begins
      modifies this`log
      ensures log == Repair(env, old(log), event, d, disk.(commit := true))
    {
      hide AppendOperation;
      var savepoint := log;
      var ok := AppendRow(event, true, d.operation, d);
      if !ok || !disk.quota {
        log := savepoint;
        log := Marked(log, disk.mark);
      }
    }

    method RecordIntent(kind: Kind, target: Option<Reference>, reserve: bool, actor: Option<Reference>, d: Draw,
                        disk: Disk) returns (operation: Option<string>)
      requires Valid()
      modifies this
      ensures Valid() && old(full) <= full
      ensures (log, operation) == EffectIntent(env, old(log), kind, target, reserve, actor, d, disk)
      ensures operation.None? ==> (log.degraded <==> old(log).degraded || disk.mark)
    {
      hide Sound;
      ghost var next := EffectIntent(env, log, kind, target, reserve, actor, d, disk).0;
      ghost var history := Extended(full, log, next);
      IntentSound(env, log, full, kind, target, reserve, actor, d, disk);
      ExtendedGrows(full, log, next);
      operation := IntentRows(kind, target, reserve, actor, d, disk);
      full := history;
    }

    method IntentRows(kind: Kind, target: Option<Reference>, reserve: bool, actor: Option<Reference>, d: Draw,
                      disk: Disk) returns (operation: Option<string>)
      modifies this`log
      ensures (log, operation) == EffectIntent(env, old(log), kind, target, reserve, actor, d, disk)
    {
      var name := Effect(kind, target);
      if !disk.begins {
        log := Marked(log, disk.mark);
        return None;
      }
      if name in log.pending {
        return Some(log.pending[name]);
      }
      if |log.pending| >= PENDING_LIMIT {
        log := Marked(log, disk.mark);
        return None;
      }
      operation := NewIntentRows(name, IntentEvent(kind, target, actor), reserve, d, disk);
    }

    method NewIntentRows(name: Effect, event: Event, reserve: bool, d: Draw, disk: Disk)
        returns (operation: Option<string>)
      modifies this`log
      ensures (log, operation) == NewIntent(env, old(log), name, event, reserve, d, disk)
    {
      hide AppendOperation;
      var committed := log;
      var ok := AppendRow(event, reserve, d.operation, d);
      if !ok || !disk.Commits() {
        log := committed;
        log := Marked(log, disk.mark);
        return None;
      }
      log := log.(pending := log.pending[name := d.operation]);
      return Some(d.operation);
    }

    method RecordResult(kind: Kind, operation: Option<string>, success: bool, d: Draw, disk: Disk)
      requires Valid()
      modifies this
      ensures Valid() && old(full) <= full
      ensures log == EffectResult(env, old(log), kind, operation, success, d, disk)
      ensures operation.Some? ==>
                var event := ResultEvent(kind, success);
                log.degraded || RecordedAt(env, full, |old(full)|, event, operation.value)
                <==> || old(log).degraded || disk.mark
                     || (disk.Commits() && CanAppend(env, old(log), event, true, operation.value, d))
    {
      hide Sound;
      if operation.Some? {
        ResultRecords(env, log, full, kind, operation.value, success, d, disk);
      }
      ghost var next := EffectResult(env, log, kind, operation, success, d, disk);
      ghost var history := Extended(full, log, next);
      ResultSound(env, log, full, kind, operation, success, d, disk);
      ExtendedGrows(full, log, next);
      ResultRows(kind, operation, success, d, disk);
      full := history;
    }

    method ResultRows(kind: Kind, operation: Option<string>, success: bool, d: Draw, disk: Disk)
      modifies this`log
      ensures log == EffectResult(env, old(log), kind, operation, success, d, disk)
    {
      hide AppendOperation;
      if operation.None? {
        return;
      }
      var committed := log;
      var ok := AppendRow(ResultEvent(kind, success), true, operation.value, d);
      if ok && (success || kind == Export) {
        log := log.(pending := Settled(log.pending, operation.value));
      }
      if !ok || !disk.Commits() {
        log := committed;
        log := Marked(log, disk.mark);
      }
    }

    method AllowPruning(through: nat, d: Draw, storage: bool) returns (ok: bool)
      requires Valid()
      modifies this
      ensures Valid() && old(full) <= full
      ensures (log, ok) == SetRetention(env, old(log), through, d, storage)
    {
      hide Sound;
      ghost var next := SetRetention(env, log, through, d, storage).0;
      ghost var history := Extended(full, log, next);
      RetentionSound(env, log, full, through, d, storage);
      ExtendedGrows(full, log, next);
      ok := RetentionRows(through, d, storage);
      full := history;
    }

    method RetentionRows(through: nat, d: Draw, storage: bool) returns (ok: bool)
      modifies this`log
      ensures (log, ok) == SetRetention(env, old(log), through, d, storage)
    {
      hide AppendOperation;
      var committed := log;
      if !Healthy(log) || through >= log.next {
        return false;
      }
      var event := RetentionEvent(log, through);
      log := log.(through := through, policy := log.policy + 1);
      ok := AppendRow(event, true, d.operation, d);
      if !ok || !storage {
        log := committed;
        ok := false;
      }
    }

    method PruneOldest(through: nat, apply: bool, d: Draw, storage: bool) returns (deleted: Option<nat>)
      requires Valid()
      modifies this
      ensures Valid() && old(full) <= full
      ensures (log, deleted) == PruneBatch(env, old(log), through, apply, d, storage)
      ensures deleted.Some? ==> log.from == old(log).from + deleted.value
    {
      hide Sound;
      ghost var next := PruneBatch(env, log, through, apply, d, storage).0;
      ghost var history := Extended(full, log, next);
      PruneSound(env, log, full, through, apply, d, storage);
      PruneAdvances(env, log, full, through, apply, d, storage);
      ExtendedGrows(full, log, next);
      deleted := PruneRows(through, apply, d, storage);
      full := history;
    }

    method PruneRows(through: nat, apply: bool, d: Draw, storage: bool) returns (deleted: Option<nat>)
      modifies this`log
      ensures (log, deleted) == PruneBatch(env, old(log), through, apply, d, storage)
    {
      hide AppendOperation;
      var committed := log;
      if !Healthy(log) || through > log.through {
        return None;
      }
      var batch := Query(log.rows, -1, through, BATCH);
      if !apply || batch == [] {
        return Some(0);
      }
      var last := batch[|batch| - 1].sequence;
      var event := PruneEvent(log, |batch|, last);
      log := log.(rows := Delete(log.rows, last));
      log := log.(from := last + 1, events := log.events - |batch|, bytes := log.bytes - Size(batch));
      var ok := AppendRow(event, true, d.operation, d);
      if ok && storage {
        return Some(|batch|);
      }
      log := committed;
      return None;
    }

    method Reopen(d: Draw, storage: bool) returns (ok: bool)
      requires Valid()
      modifies this
      ensures Valid() && old(full) <= full
      ensures (log, ok) == Recover(env, old(log), d, storage)
    {
      hide Sound;
      ghost var next := Recover(env, log, d, storage).0;
      ghost var history := Extended(full, log, next);
      RecoverSound(env, log, full, d, storage);
      ExtendedGrows(full, log, next);
      ok := RecoverRows(d, storage);
      full := history;
    }

    method RecoverRows(d: Draw, storage: bool) returns (ok: bool)
      modifies this`log
      ensures (log, ok) == Recover(env, old(log), d, storage)
    {
      hide AppendOperation;
      var committed := log;
      if !Healthy(log) || log.events + 1 >= MAX_EVENTS - RESERVE_EVENTS
          || log.bytes + MAX_EVENT_BYTES > MAX_BYTES - RESERVE_BYTES {
        return false;
      }
      ok := AppendRow(RECOVERY, true, d.operation, d);
      log := log.(degraded := false);
      if !ok || !storage {
        log := committed;
        ok := false;
      }
    }

    /**
     * `export`, on any log at all: what is written is a gap-free stretch of bound records after
     * the cursor, and it stops only at the limit or at the declared boundary. On a sound log it
     * fails only for a bad cursor or for the files.
     */
    method ExportTo(store: string, after: nat, upper: nat, limit: nat, files: bool) returns (r: Option<Artifact>)
      ensures r.Some? ==> CursorAllowed(env, log, store, after, upper, limit)
      ensures r.Some? ==>
            IsStretch(env, log.rows, r.value.lines, after)
            && r.value.cursor == after + |r.value.lines| <= upper
      ensures r.Some? ==> |r.value.lines| == limit || (|r.value.lines| < limit && r.value.cursor == upper)
      ensures Valid() && files && CursorAllowed(env, log, store, after, upper, limit) ==> r.Some?
    {
      if !(1 <= limit <= 10_000) || !Healthy(log) || store != env.store || after + 1 < log.from || after > upper
          || upper >= log.next || !files {
        return None;
      }
      var lines, cursor := [], after;
      while |lines| < limit
        invariant |lines| <= limit && cursor == after + |lines| <= upper
        invariant IsStretch(env, log.rows, lines, after)
        decreases limit - |lines|
      {
        var batch := if limit - |lines| < BATCH then limit - |lines| else BATCH;
        var page := Query(log.rows, cursor, upper, batch);
        QueryFinds(log.rows, cursor, upper, batch);
        if Sound(env, log, full) {
          NextPage(env, log, full, cursor, upper, batch);
        }
        if page == [] {
          if cursor != upper {
            return None;
          }
          break;
        }
        var ok, more := CheckPage(page, cursor, upper);
        if !ok {
          return None;
        }
        StretchGrows(env, log.rows, lines, more, after);
        lines, cursor := lines + more, cursor + |more|;
      }
      return Some(Artifact(lines, cursor));
    }

    /** The inner loop of `export`: sequence, size and binding of every row of one batch. */
    method CheckPage(page: seq<Row>, after: nat, ghost upper: nat) returns (ok: bool, lines: seq<Bytes>)
      requires forall i | 0 <= i < |page| :: page[i] in log.rows && page[i].sequence <= upper
      ensures ok <==> PageBound(env, page, after)
      ensures ok ==>
            |lines| == |page| && IsStretch(env, log.rows, lines, after)
            && (page != [] ==> after + |lines| <= upper)
    {
      lines := [];
      for i := 0 to |page|
        invariant |lines| == i
        invariant forall j | 0 <= j < i ::
                   page[j].sequence == after + j + 1
                   && Bound(env, page[j].payload, after + j + 1)
        invariant forall j | 0 <= j < i :: lines[j] == page[j].payload
      {
        if page[i].sequence != after + i + 1 || !Bound(env, page[i].payload, page[i].sequence) {
          return false, [];
        }
        lines := lines + [page[i].payload];
      }
      forall j | 0 <= j < |lines| ensures StretchAt(env, log.rows, lines, after, j) {
        assert page[j] == Row(after + j + 1, lines[j]);
      }
      assert page != [] ==> page[|page| - 1].sequence == after + |page|;
      return true, lines;
    }
  }

  lemma PruneAdvances(env: Env, log: Log, full: seq<Bytes>, through: nat, apply: bool, d: Draw, storage: bool)
    requires Sound(env, log, full)
    ensures var (next, deleted) := PruneBatch(env, log, through, apply, d, storage);
            next.from == log.from + (if deleted.Some? then deleted.value else 0)
  {
    if through <= log.through {
      PrunedRows(log, full, through);
      var batch := Query(log.rows, -1, through, BATCH);
      if batch != [] {
        PrunedCounted(log, full, batch);
      }
    }
  }

  /** Line `j` is the stored and bound record number `after + j + 1`. */
  predicate StretchAt(env: Env, rows: seq<Row>, lines: seq<Bytes>, after: nat, j: nat)
    requires j < |lines|
  {
    Row(after + j + 1, lines[j]) in rows && Bound(env, lines[j], after + j + 1)
  }

  predicate IsStretch(env: Env, rows: seq<Row>, lines: seq<Bytes>, after: nat) {
    forall j | 0 <= j < |lines| :: StretchAt(env, rows, lines, after, j)
  }

  predicate PageBound(env: Env, page: seq<Row>, after: nat) {
    forall i | 0 <= i < |page| :: page[i].sequence == after + i + 1 && Bound(env, page[i].payload, after + i + 1)
  }

  lemma StretchGrows(env: Env, rows: seq<Row>, lines: seq<Bytes>, more: seq<Bytes>, after: nat)
    requires IsStretch(env, rows, lines, after) && IsStretch(env, rows, more, after + |lines|)
    ensures IsStretch(env, rows, lines + more, after)
  {
    forall j | 0 <= j < |lines + more| ensures StretchAt(env, rows, lines + more, after, j) {
      if j < |lines| {
        assert StretchAt(env, rows, lines, after, j);
      } else {
        assert StretchAt(env, rows, more, after + |lines|, j - |lines|);
      }
    }
  }

  lemma {:induction false} QueryFinds(rows: seq<Row>, after: int, upto: int, limit: nat)
    ensures var page := Query(rows, after, upto, limit);
            |page| <= limit && forall i | 0 <= i < |page| :: page[i] in rows && after < page[i].sequence <= upto
    decreases |rows|
  {
    if rows != [] && limit != 0 {
      var keep := after < rows[0].sequence <= upto;
      QueryFinds(rows[1..], after, upto, if keep then limit - 1 else limit);
    }
  }

  /** On a sound log a batch is bound and empty only at the boundary. */
  lemma NextPage(env: Env, log: Log, full: seq<Bytes>, cursor: nat, upper: nat, batch: nat)
    requires Sound(env, log, full) && log.from <= cursor + 1 && cursor <= upper < log.next && batch > 0
    ensures var page := Query(log.rows, cursor, upper, batch);
            PageBound(env, page, cursor) && (page == [] ==> cursor == upper)
  {
    RowsContiguous(full, log.from);
    QueryIsSlice(log.rows, log.from, cursor, upper, batch);
    var page := Query(log.rows, cursor, upper, batch);
    var lo := cursor + 1 - log.from;
    assert |log.rows| == |Rows(full, log.from)| == log.next - log.from;
    forall i | 0 <= i < |page| ensures page[i].sequence == cursor + i + 1
        && Bound(env, page[i].payload, cursor + i + 1) {
      assert page[i] == log.rows[lo + i];
      RowIs(log, full, lo + i);
      assert Bound(env, full[cursor + i], cursor + i + 1);
    }
  }

  lemma {:induction false} AppendAllFails(env: Env, log: Log, entries: seq<(Event, Draw)>, i: nat)
    requires i <= |entries| && AppendAll(env, log, entries[..i]).None?
    ensures AppendAll(env, log, entries).None?
    decreases |entries|
  {
    if i < |entries| {
      var rest := entries[..|entries| - 1];
      assert rest[..i] == entries[..i];
      AppendAllFails(env, log, rest, i);
    } else {
      assert entries[..i] == entries;
    }
  }
}
