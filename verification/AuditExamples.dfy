/**
 * Full audit logs: stores in which certain records have exactly the permitted size, the runs that
 * exhaust their quotas to the byte, and what `repair` and `recover` do then.
 */
module AuditExamples {
  import opened Prelude
  import opened Wire
  import opened Audit
  import opened AuditRuns

  // ---- Records of the largest size ----

  function Digits(n: nat, count: nat): (bytes: Bytes)
    ensures |bytes| == count
  {
    if count == 0 then [] else Digits(n / 256, count - 1) + [n % 256]
  }

  predicate Below(n: nat, count: nat) {
    if count == 0 then n == 0 else Below(n / 256, count - 1)
  }

  lemma {:induction false} DigitsReadBack(n: nat, count: nat)
    requires Below(n, count)
    ensures BigEndian(Digits(n, count)) == n
  {
    if count > 0 {
      DigitsReadBack(n / 256, count - 1);
      assert Digits(n, count)[..count - 1] == Digits(n / 256, count - 1);
    }
  }

  lemma SequencesAreBelow(n: nat)
    requires n <= I64_MAX
    ensures Below(n, 8)
  {
    var a := n / 256;
    var b := a / 256;
    var c := b / 256;
    var e := c / 256;
    var f := e / 256;
    var g := f / 256;
    var h := g / 256;
    assert a <= 0x7f_ffff_ffff_ffff && b <= 0x7fff_ffff_ffff && c <= 0x7f_ffff_ffff && e <= 0x7fff_ffff;
    assert f <= 0x7f_ffff && g <= 0x7fff && h <= 0x7f;
    assert Below(h, 1) by { assert h / 256 == 0; assert Below(h / 256, 0); }
    assert Below(g, 2) && Below(f, 3);
    assert Below(e, 4) && Below(c, 5);
    assert Below(b, 6) && Below(a, 7);
  }

  /** The same record at another sequence. */
  predicate Like(a: Record, r: Record) {
    r == a.(sequence := r.sequence) && r.sequence <= I64_MAX
  }

  function Frame(tag: Byte, sequence: nat): (bytes: Bytes)
    ensures |bytes| == MAX_EVENT_BYTES && bytes[0] == tag && bytes[2040..] == Digits(sequence, 8)
  {
    [tag] + seq(2039, _ => 0) + Digits(sequence, 8)
  }

  /** A codec that fills records like `a` and like `b` up to the limit. */
  function Padded(json: Codec<Record>, a: Record, b: Record): Codec<Record> {
    Codec(
      (r: Record) =>
        if Like(a, r) then Frame(0, r.sequence) else if Like(b, r) then Frame(1, r.sequence) else [2] + json.encode(r),
      (bytes: Bytes) =>
        if bytes == [] then None
        else if bytes[0] == 2 then json.decode(bytes[1..])
        else if |bytes| != MAX_EVENT_BYTES then None
        else Some((if bytes[0] == 0 then a else b).(sequence := BigEndian(bytes[2040..]))))
  }

  lemma PaddedRoundTrips(json: Codec<Record>, a: Record, b: Record)
    requires RoundTrips(json)
    ensures RoundTrips(Padded(json, a, b))
  {
    var codec := Padded(json, a, b);
    forall r: Record ensures codec.decode(codec.encode(r)) == Some(r) {
      if Like(a, r) || Like(b, r) {
        SequencesAreBelow(r.sequence);
        DigitsReadBack(r.sequence, 8);
      } else {
        assert ([2] + json.encode(r))[1..] == json.encode(r);
        assert json.decode(json.encode(r)) == Some(r);
      }
    }
  }

  /** The record of this event has exactly the permitted size at every sequence there can be. */
  ghost predicate AlwaysLargest(env: Env, event: Event, d: Draw) {
    forall sequence: nat | sequence <= I64_MAX ::
      |env.json.encode(RecordOf(env, sequence, event, d.operation, d))| == MAX_EVENT_BYTES
  }

  function PaddedStore(env: Env, x: Event, y: Event, d: Draw): Env {
    env.(json := Padded(env.json, RecordOf(env, 0, x, d.operation, d), RecordOf(env, 0, y, d.operation, d)))
  }

  /** There are stores whose codec undoes itself and in which any two events always take the permitted size. */
  lemma LargestRecordsExist(env: Env, x: Event, y: Event, d: Draw)
    requires RoundTrips(env.json)
    ensures var store := PaddedStore(env, x, y, d);
            RoundTrips(store.json) && AlwaysLargest(store, x, d) && AlwaysLargest(store, y, d)
  {
    var a, b := RecordOf(env, 0, x, d.operation, d), RecordOf(env, 0, y, d.operation, d);
    PaddedRoundTrips(env.json, a, b);
    var store := PaddedStore(env, x, y, d);
    forall sequence: nat | sequence <= I64_MAX
      ensures |store.json.encode(RecordOf(store, sequence, x, d.operation, d))| == MAX_EVENT_BYTES
      ensures |store.json.encode(RecordOf(store, sequence, y, d.operation, d))| == MAX_EVENT_BYTES
    {
      assert Like(a, RecordOf(store, sequence, x, d.operation, d));
      assert Like(b, RecordOf(store, sequence, y, d.operation, d));
    }
  }

  // ---- Runs that fill the log ----

  /** `n` ordinary records, one transaction each. */
  function Ordinary(event: Event, d: Draw, n: nat): seq<Op> {
    seq(n, _ => BatchOp([(event, d)], true))
  }

  ghost predicate GrownBy(log: Log, after: Log, n: nat) {
    && after.events == log.events + n && after.bytes == log.bytes + n * MAX_EVENT_BYTES && after.next == log.next + n
    && after.degraded == log.degraded
  }

  lemma OneBatch(env: Env, log: Log, event: Event, d: Draw)
    requires CanAppend(env, log, event, false, d.operation, d)
    ensures Next(env, log, BatchOp([(event, d)], true)) == Inserted(log, PayloadOf(env, log, event, d.operation, d))
  {
    assert [(event, d)][..0] == [];
    assert AppendAll(env, log, []) == Some(log);
    assert AppendAll(env, log, [(event, d)]) == Append(env, log, event, false, d);
  }

  lemma OrdinaryFits(env: Env, log: Log, full: seq<Bytes>, event: Event, d: Draw)
    requires Sound(env, log, full) && AlwaysLargest(env, event, d) && !log.degraded
    requires log.events < MAX_EVENTS - RESERVE_EVENTS && log.next < I64_MAX
    requires log.bytes + MAX_EVENT_BYTES <= MAX_BYTES - RESERVE_BYTES
    ensures CanAppend(env, log, event, false, d.operation, d)
    ensures |PayloadOf(env, log, event, d.operation, d)| == MAX_EVENT_BYTES
  {
    assert |PayloadOf(env, log, event, d.operation, d)| == MAX_EVENT_BYTES;
  }

  lemma {:induction false} OrdinaryFills(env: Env, log: Log, full: seq<Bytes>, event: Event, d: Draw, n: nat)
    requires RoundTrips(env.json) && Sound(env, log, full) && AlwaysLargest(env, event, d) && !log.degraded
    requires log.events + n <= MAX_EVENTS - RESERVE_EVENTS && log.next + n <= I64_MAX
    requires log.bytes + n * MAX_EVENT_BYTES <= MAX_BYTES - RESERVE_BYTES
    ensures var (after, history) := Run(env, log, full, Ordinary(event, d, n));
            Sound(env, after, history) && GrownBy(log, after, n)
    decreases n
  {
    if n > 0 {
      hide CanAppend, Sound, RoundTrips, AlwaysLargest;
      var p := PayloadOf(env, log, event, d.operation, d);
      OrdinaryFits(env, log, full, event, d);
      OneBatch(env, log, event, d);
      AppendSound(env, log, full, event, false, d.operation, d);
      ExtendedByOne(full, log, log, p, Inserted(log, p));
      assert Ordinary(event, d, n)[1..] == Ordinary(event, d, n - 1);
      OrdinaryFills(env, Inserted(log, p), full + [p], event, d, n - 1);
    }
  }

  function Repairs(event: Event, d: Draw, n: nat): seq<(Event, Draw)> {
    seq(n, _ => (event, d))
  }

  lemma {:induction false} RepairsFill(env: Env, log: Log, full: seq<Bytes>, event: Event, d: Draw, n: nat)
    requires RoundTrips(env.json) && Sound(env, log, full) && AlwaysLargest(env, event, d) && ReserveFree(log, n)
    ensures GrownBy(log, RepairAll(env, log, Repairs(event, d, n)), n)
    decreases n
  {
    if n > 0 {
      var p := PayloadOf(env, log, event, d.operation, d);
      assert |p| == MAX_EVENT_BYTES;
      OneFromReserve(env, log, full, event, d, n);
      assert Repairs(event, d, n)[1..] == Repairs(event, d, n - 1);
      RepairsFill(env, Inserted(log, p), full + [p], event, d, n - 1);
    }
  }

  // ---- The reserve is exact ----

  /** Fifteen times the reserve is what ordinary records may use. */
  const ORDINARY_RECORDS: nat := 15 * RESERVE_EVENTS

  /**
   * With the ordinary quota exhausted to the byte, the next ordinary record is refused, 1024 repairs
   * of the largest size are recorded, and the one after them leaves the mark instead.
   */
  lemma ReserveIsExact(env: Env, event: Event, d: Draw)
    requires RoundTrips(env.json) && AlwaysLargest(env, event, d)
    ensures var (log, full) := Run(env, EMPTY_LOG, [], Ordinary(event, d, ORDINARY_RECORDS));
            && Append(env, log, event, false, d).None?
            && var after := RepairAll(env, log, Repairs(event, d, RESERVE_EVENTS));
               && Accumulates(env, log, full, Repairs(event, d, RESERVE_EVENTS), after) && !after.degraded
               && Repair(env, after, event, d, WORKING) == Degrade(after)
  {
    StartSound(env);
    OrdinaryFills(env, EMPTY_LOG, [], event, d, ORDINARY_RECORDS);
    var (log, full) := Run(env, EMPTY_LOG, [], Ordinary(event, d, ORDINARY_RECORDS));
    RepairsFill(env, log, full, event, d, RESERVE_EVENTS);
    ReserveSuffices(env, log, full, Repairs(event, d, RESERVE_EVENTS));
    assert |PayloadOf(env, log, event, d.operation, d)| == MAX_EVENT_BYTES;
  }

  // ---- Recovery without room ----

  /** The last ordinary record's room goes to the record of the recovery itself. */
  lemma RecoveryTakesTheRoom(env: Env, log: Log, full: seq<Bytes>, event: Event, d: Draw)
    requires Sound(env, log, full) && AlwaysLargest(env, event, d) && AlwaysLargest(env, RECOVERY, d)
    requires log.bytes + MAX_EVENT_BYTES == MAX_BYTES - RESERVE_BYTES
    requires log.events < ORDINARY_RECORDS && log.next <= ORDINARY_RECORDS
    ensures var (after, ok) := Recover(env, Degrade(log), d, true);
            ok && !after.degraded && !AdmissionCapacity(after) && Append(env, after, event, false, d).None?
  {
    assert |env.json.encode(RecordOf(env, log.next, RECOVERY, d.operation, d))| == MAX_EVENT_BYTES;
    assert |env.json.encode(RecordOf(env, log.next + 1, event, d.operation, d))| == MAX_EVENT_BYTES;
  }

  /**
   * With room for one more ordinary record, a repair that finds the disk full degrades the log, and
   * the recovery after it succeeds by using up that room: it reports no admission capacity, and the
   * next ordinary record is refused.
   */
  lemma RecoveryLeavesNoRoom(env: Env, event: Event, d: Draw)
    requires RoundTrips(env.json)
    ensures var store := PaddedStore(env, event, RECOVERY, d);
            var (log, full) := Run(store, EMPTY_LOG, [], Ordinary(event, d, ORDINARY_RECORDS - 1));
            && RoundTrips(store.json) && Sound(store, log, full) && AdmissionCapacity(log)
            && Repair(store, log, event, d, WORKING.(quota := false)) == Degrade(log)
            && var (after, ok) := Recover(store, Degrade(log), d, true);
               ok && !after.degraded && !AdmissionCapacity(after) && Append(store, after, event, false, d).None?
  {
    LargestRecordsExist(env, event, RECOVERY, d);
    var store := PaddedStore(env, event, RECOVERY, d);
    StartSound(store);
    OrdinaryFills(store, EMPTY_LOG, [], event, d, ORDINARY_RECORDS - 1);
    var (log, full) := Run(store, EMPTY_LOG, [], Ordinary(event, d, ORDINARY_RECORDS - 1));
    RecoveryTakesTheRoom(store, log, full, event, d);
    hide Recover, CanAppend, PaddedStore, AlwaysLargest;
  }
}
