/**
 * Durable staging and in-order processing of one group's history: crates/epochgrid-core/src/
 * history.rs, with the transactions of messaging.rs and epochs.rs. MLS is three arbitrary functions
 * of the stored group state that may reject a message or fail on it; the outbox and the revocation table stay fixed.
 */
module History {
  import opened Prelude
  import opened Wire

  /** The group state as it is stored; receiving reads and writes nothing else of MLS. */
  type GroupState = Bytes

  datatype ContentType = Application | Commit | Other

  /** The unauthenticated framing of a PrivateMessage. */
  datatype Header = Header(group: Bytes, epoch: nat, content: ContentType)

  datatype Opened = Opened(sender: string, plaintext: Bytes, next: GroupState)

  /** `Invalid` blames the message; `Failed` is a storage, library or group-state error of MLS. */
  datatype Outcome<+T> = Accepted(value: T) | Invalid | Failed

  datatype Client = Client(
    message: string,
    handshake: string,
    mlsId: Bytes,
    joinEpoch: nat,
    own: set<Bytes>,
    parse: Bytes -> Option<Header>,
    active: GroupState -> bool,
    open: (GroupState, Bytes) -> Outcome<Opened>,
    commit: (GroupState, Bytes, nat) -> Outcome<GroupState>)

  datatype DeliveryState = Pending | Processed | Rejected

  datatype Delivery = Delivery(subject: string, payload: Bytes, state: DeliveryState)

  datatype Entry = Entry(sender: Option<string>, plaintext: Option<Bytes>, outgoing: bool, sequence: Option<nat>)

  /** What one message may change: the group, the dedup table and the transcript. */
  datatype Local = Local(group: GroupState, received: set<Bytes>, transcript: map<Bytes, Entry>)

  datatype Tables = Tables(deliveries: map<nat, Delivery>, local: Local)

  datatype Report = Report(decrypted: nat, rejected: nat, unavailable: nat)

  const MAX_SUBJECT: nat := 256

  // ---- Staging ----

  /** `stage_chat`: the first bytes stored for a sequence are the only ones. */
  function Stage(t: Tables, sequence: nat, subject: string, payload: Bytes, storage: bool): (Tables, bool) {
    if !(0 < sequence <= I64_MAX) || |payload| > MAX_WIRE || |subject| > MAX_SUBJECT || !storage then (t, false)
    else if sequence in t.deliveries then
      (t, t.deliveries[sequence].subject == subject && t.deliveries[sequence].payload == payload)
    else (t.(deliveries := t.deliveries[sequence := Delivery(subject, payload, Pending)]), true)
  }

  // ---- One message ----

  /** `Stuck` ends the pass with the row still pending. */
  datatype Verdict = Reject | Skip | Merge(next: GroupState) | Known | Open(found: Opened) | Stuck

  predicate InGroup(c: Client, subject: string) {
    subject == c.message || subject == c.handshake
  }

  predicate KnownPayload(c: Client, l: Local, payload: Bytes) {
    payload in l.received || payload in c.own
  }

  /** `before_join`: the framing must be readable and of this group; older epochs are skipped. */
  function BeforeJoin(c: Client, payload: Bytes): Option<bool> {
    if |payload| > MAX_WIRE then None
    else
      match c.parse(payload)
      case None => None
      case Some(h) => if h.group == c.mlsId then Some(h.epoch < c.joinEpoch) else None
  }

  predicate HasContent(c: Client, payload: Bytes, content: ContentType) {
    c.parse(payload).Some? && c.parse(payload).value.content == content
  }

  /** `process_handshake`. */
  function HandshakeVerdict(c: Client, l: Local, payload: Bytes, sequence: nat): Verdict {
    if !HasContent(c, payload, Commit) then Reject
    else if KnownPayload(c, l, payload) then Skip
    else
      match c.commit(l.group, payload, sequence)
      case Invalid => Reject
      case Failed => Stuck
      case Accepted(next) => Merge(next)
  }

  /** `decrypt_inner`: the payload column of the transcript is unique. */
  function MessageVerdict(c: Client, l: Local, payload: Bytes): Verdict {
    if !HasContent(c, payload, Application) then Reject
    else if KnownPayload(c, l, payload) then Known
    else if !c.active(l.group) then Reject
    else
      match c.open(l.group, payload)
      case Invalid => Reject
      case Failed => Stuck
      case Accepted(found) => if payload in l.transcript then Stuck else Open(found)
  }

  function Judge(c: Client, l: Local, subject: string, payload: Bytes, sequence: nat): Verdict {
    match BeforeJoin(c, payload)
    case None => Reject
    case Some(before) =>
      if before then Skip
      else if subject == c.handshake then HandshakeVerdict(c, l, payload, sequence)
      else MessageVerdict(c, l, payload)
  }

  function Least(a: Option<nat>, sequence: nat): Option<nat> {
    if a.None? || a.value > sequence then Some(sequence) else a
  }

  /** An explicit gap for a missing row, and the least sequence seen so far. */
  function Shown(c: Client, transcript: map<Bytes, Entry>, sequence: nat, payload: Bytes): map<Bytes, Entry> {
    var e := if payload in transcript then transcript[payload] else Entry(None, None, payload in c.own, None);
    transcript[payload := e.(sequence := Least(e.sequence, sequence))]
  }

  /** What the transaction of one row leaves behind. */
  function After(c: Client, l: Local, v: Verdict, payload: Bytes, sequence: nat): Local {
    match v
    case Merge(next) => l.(group := next, received := l.received + {payload})
    case Known => l.(transcript := Shown(c, l.transcript, sequence, payload))
    case Open(o) =>
      var inserted := l.transcript[payload := Entry(Some(o.sender), Some(o.plaintext), false, None)];
      Local(o.next, l.received + {payload}, Shown(c, inserted, sequence, payload))
    case _ => l
  }

  function Counted(r: Report, v: Verdict, l: Local, payload: Bytes): Report {
    match v
    case Reject => r.(rejected := r.rejected + 1)
    case Open(_) => r.(decrypted := r.decrypted + 1)
    case Known => if payload in l.transcript then r else r.(unavailable := r.unavailable + 1)
    case _ => r
  }

  // ---- A pass over the pending rows ----

  predicate IsPending(c: Client, t: Tables, sequence: nat) {
    sequence in t.deliveries && t.deliveries[sequence].state == Pending && InGroup(c, t.deliveries[sequence].subject)
  }

  function PendingRows(c: Client, t: Tables): set<nat> {
    set s | s in t.deliveries && IsPending(c, t, s)
  }

  /** `ORDER BY sequence LIMIT 1`. */
  ghost predicate IsNext(c: Client, t: Tables, sequence: nat) {
    IsPending(c, t, sequence) && forall s | s in t.deliveries && IsPending(c, t, s) :: sequence <= s
  }

  lemma NextExists(c: Client, t: Tables)
    requires PendingRows(c, t) != {}
    ensures exists s :: IsNext(c, t, s)
  {
    var s := LeastOf(PendingRows(c, t));
    forall r | r in t.deliveries && IsPending(c, t, r) ensures s <= r {
      assert r in PendingRows(c, t);
    }
    assert IsNext(c, t, s);
  }

  ghost function NextPending(c: Client, t: Tables): (s: nat)
    requires PendingRows(c, t) != {}
    ensures IsNext(c, t, s)
  {
    NextExists(c, t);
    var s :| IsNext(c, t, s);
    s
  }

  function VerdictOf(c: Client, t: Tables, s: nat): Verdict
    requires s in t.deliveries
  {
    Judge(c, t.local, t.deliveries[s].subject, t.deliveries[s].payload, s)
  }

  /** One row: processed or rejected, with everything the verdict brings. */
  function Handle(c: Client, t: Tables, s: nat): Tables
    requires s in t.deliveries
  {
    var d, v := t.deliveries[s], VerdictOf(c, t, s);
    var state := if v.Reject? then Rejected else Processed;
    Tables(t.deliveries[s := d.(state := state)], After(c, t.local, v, d.payload, s))
  }

  /** `process_history`; `storage(s)` says whether the statements and the commit for row `s` succeed. */
  ghost function ProcessAll(c: Client, t: Tables, r: Report, storage: nat -> bool): (Tables, Report, bool)
    decreases |PendingRows(c, t)|
  {
    if PendingRows(c, t) == {} then (t, r, true)
    else
      var s := NextPending(c, t);
      var v := VerdictOf(c, t, s);
      if !storage(s) || v.Stuck? then (t, r, false)
      else
        assert PendingRows(c, Handle(c, t, s)) == PendingRows(c, t) - {s};
        ProcessAll(c, Handle(c, t, s), Counted(r, v, t.local, t.deliveries[s].payload), storage)
  }

  // ---- The store ----

  class HistoryStore {
    const c: Client
    var deliveries: map<nat, Delivery>
    var group: GroupState
    var received: set<Bytes>
    var transcript: map<Bytes, Entry>

    ghost function Now(): Tables
      reads this
    {
      Tables(deliveries, Local(group, received, transcript))
    }

    constructor (c: Client, group: GroupState, received: set<Bytes>, transcript: map<Bytes, Entry>)
      ensures this.c == c && Now() == Tables(map[], Local(group, received, transcript))
    {
      this.c := c;
      this.deliveries := map[];
      this.group, this.received, this.transcript := group, received, transcript;
    }

    method StageChat(sequence: nat, subject: string, payload: Bytes, storage: bool) returns (ok: bool)
      modifies this`deliveries
      ensures (Now(), ok) == Stage(old(Now()), sequence, subject, payload, storage)
    {
      if !(0 < sequence <= I64_MAX) || |payload| > MAX_WIRE || |subject| > MAX_SUBJECT || !storage {
        return false;
      }
      if sequence in deliveries {
        return deliveries[sequence].subject == subject && deliveries[sequence].payload == payload;
      }
      deliveries := deliveries[sequence := Delivery(subject, payload, Pending)];
      return true;
    }

    method ProcessHistory(storage: nat -> bool) returns (report: Report, ok: bool)
      modifies this
      ensures (Now(), report, ok) == ProcessAll(c, old(Now()), Report(0, 0, 0), storage)
    {
      ghost var whole := ProcessAll(c, Now(), Report(0, 0, 0), storage);
      report := Report(0, 0, 0);
      while true
        invariant ProcessAll(c, Now(), report, storage) == whole
        decreases |PendingRows(c, Now())|
      {
        var next := FindNext();
        if next.None? {
          return report, true;
        }
        var s := next.value;
        var payload := deliveries[s].payload;
        ghost var before := Now();
        var v := Decide(s);
        if !storage(s) || v.Stuck? {
          return report, false;
        }
        report := Counted(report, v, Local(group, received, transcript), payload);
        if v.Reject? {
          deliveries := deliveries[s := deliveries[s].(state := Rejected)];
        } else {
          AcceptRow(s, v);
        }
        assert PendingRows(c, Now()) == PendingRows(c, before) - {s};
      }
    }

    /** The pending row of this group with the least sequence. */
    method FindNext() returns (next: Option<nat>)
      ensures next.None? <==> PendingRows(c, Now()) == {}
      ensures next.Some? ==> next.value == NextPending(c, Now())
    {
      next := None;
      var todo := deliveries.Keys;
      while todo != {}
        invariant todo <= deliveries.Keys
        invariant next.Some? ==> IsPending(c, Now(), next.value) && next.value in deliveries.Keys - todo
        invariant forall s | s in deliveries.Keys - todo && IsPending(c, Now(), s) :: next.Some? && next.value <= s
        decreases todo
      {
        var s :| s in todo;
        todo := todo - {s};
        var d := deliveries[s];
        if d.state == Pending && InGroup(c, d.subject) && (next.None? || s < next.value) {
          next := Some(s);
        }
      }
      if next.Some? {
        assert next.value in PendingRows(c, Now());
        var least := next.value;
        assert IsNext(c, Now(), least);
      }
    }

    method Decide(s: nat) returns (v: Verdict)
      requires s in deliveries
      ensures v == VerdictOf(c, Now(), s)
    {
      var d := deliveries[s];
      v := Judge(c, Local(group, received, transcript), d.subject, d.payload, s);
    }

    /** The statements of an accepted row, in order. */
    method AcceptRow(s: nat, v: Verdict)
      requires s in deliveries && v == VerdictOf(c, Now(), s) && !v.Reject? && !v.Stuck?
      modifies this
      ensures Now() == Handle(c, old(Now()), s)
    {
      var payload := deliveries[s].payload;
      match v {
        case Merge(next) =>
          group := next;
          received := received + {payload};
        case Known =>
          Show(s, payload);
        case Open(o) =>
          group := o.next;
          received := received + {payload};
          transcript := transcript[payload := Entry(Some(o.sender), Some(o.plaintext), false, None)];
          Show(s, payload);
        case Skip =>
      }
      deliveries := deliveries[s := deliveries[s].(state := Processed)];
    }

    method Show(s: nat, payload: Bytes)
      modifies this`transcript
      ensures transcript == Shown(c, old(transcript), s, payload)
    {
      if payload !in transcript {
        transcript := transcript[payload := Entry(None, None, payload in c.own, None)];
      }
      var e := transcript[payload];
      if e.sequence.None? || e.sequence.value > s {
        transcript := transcript[payload := e.(sequence := Some(s))];
      } else {
        assert transcript == transcript[payload := e];
      }
    }
  }
}
