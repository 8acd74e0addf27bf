/**
 * The durable outbox: `queue` and `flush_outbox` of crates/epochgrid-core/src/delivery.rs and
 * `block_revoked_outbox` of crates/epochgrid-core/src/rekey.rs. Row ids are 1, 2, ... because rows
 * are never deleted. What the network does to a row, and what is queued while it does, are arbitrary
 * functions of its id.
 */
module Outbox {
  import opened Prelude
  import opened Wire

  const RESERVE: nat := 32
  const BATCH: nat := 16

  datatype Row = Row(subject: string, payload: Bytes, sent: bool)

  datatype Limits = Limits(pendingMessages: nat, pendingBytes: nat)

  /** Row `id` is `rows[id - 1]`; `published` is every id handed to the network, repeats included. */
  datatype State = State(rows: seq<Row>, blocked: set<nat>, published: seq<nat>)

  const EMPTY := State([], {}, [])

  /** `Lost` ends the flush: an error or a crash before the row is marked, with or without publication. */
  datatype Outcome = Dispatched | Acked | Lost(published: bool)

  /** What becomes of each row of a flush, and what is queued before the flush goes on. */
  datatype Link = Link(network: nat -> Outcome, arrivals: nat -> seq<Arrival>)

  // ---- Queueing ----

  function Pending(rows: seq<Row>): nat {
    if rows == [] then 0 else Pending(rows[..|rows| - 1]) + (if rows[|rows| - 1].sent then 0 else 1)
  }

  function PendingBytes(rows: seq<Row>): nat {
    if rows == [] then 0
    else
      var last := rows[|rows| - 1];
      PendingBytes(rows[..|rows| - 1]) + (if last.sent then 0 else |last.payload|)
  }

  /** The quotas of `queue`; a recovery transaction may go 32 messages beyond them. */
  predicate Room(limits: Limits, rows: seq<Row>, size: nat, recovery: bool) {
    var reserve := if recovery then RESERVE else 0;
    && Pending(rows) < limits.pendingMessages + reserve
    && PendingBytes(rows) + size <= limits.pendingBytes + reserve * MAX_WIRE
  }

  function Queue(limits: Limits, s: State, subject: string, payload: Bytes, recovery: bool,
                 storage: bool): (State, bool) {
    if |payload| > MAX_WIRE || !Room(limits, s.rows, |payload|, recovery) || !storage
       || exists i :: 0 <= i < |s.rows| && s.rows[i].payload == payload then (s, false)
    else (s.(rows := s.rows + [Row(subject, payload, false)]), true)
  }

  /** A call of `queue` from elsewhere, while a flush waits for the network. */
  datatype Arrival = Arrival(subject: string, payload: Bytes, recovery: bool, storage: bool)

  function QueueAll(limits: Limits, s: State, arrivals: seq<Arrival>): State
    decreases |arrivals|
  {
    if arrivals == [] then s
    else
      var a := arrivals[0];
      QueueAll(limits, Queue(limits, s, a.subject, a.payload, a.recovery, a.storage).0, arrivals[1..])
  }

  // ---- Blocking ----

  predicate UnsentRow(rows: seq<Row>, subject: string, id: nat) {
    1 <= id <= |rows| && !rows[id - 1].sent && rows[id - 1].subject == subject
  }

  function UnsentOf(rows: seq<Row>, subject: string): set<nat> {
    set id: nat | 1 <= id <= |rows| && UnsentRow(rows, subject, id)
  }

  /** `block_revoked_outbox`: the message subjects of the groups found closed, as far as it got. */
  function Block(s: State, closed: seq<string>): State
    decreases |closed|
  {
    if closed == [] then s
    else Block(s.(blocked := s.blocked + UnsentOf(s.rows, closed[0])), closed[1..])
  }

  // ---- Flushing ----

  /** May this row be published? */
  predicate Eligible(s: State, id: nat) {
    1 <= id <= |s.rows| && !s.rows[id - 1].sent && id !in s.blocked
  }

  /** The eligible ids of a range, in order. */
  function Eligibles(s: State, after: nat, high: nat): (ids: seq<nat>)
    requires high <= |s.rows|
    ensures forall i | 0 <= i < |ids| :: after < ids[i] <= high
    decreases high - after
  {
    if after >= high then []
    else (if Eligible(s, after + 1) then [after + 1] else []) + Eligibles(s, after + 1, high)
  }

  function MarkSent(s: State, id: nat): State
    requires 1 <= id <= |s.rows|
  {
    s.(rows := s.rows[id - 1 := s.rows[id - 1].(sent := true)])
  }

  function Publish(s: State, id: nat): State {
    s.(published := s.published + [id])
  }

  predicate Ids(s: State, ids: seq<nat>) {
    forall i | 0 <= i < |ids| :: 1 <= ids[i] <= |s.rows|
  }

  /** The rows of `s` come first in `t`, with the same bytes, and what follows them is new and unsent. */
  predicate Grown(s: State, t: State) {
    && |s.rows| <= |t.rows| && t.rows[..|s.rows|] == s.rows && t.blocked == s.blocked && t.published == s.published
    && forall i {:trigger t.rows[i]} | |s.rows| <= i < |t.rows| :: !t.rows[i].sent
  }

  lemma {:induction false} QueueAllGrows(limits: Limits, s: State, arrivals: seq<Arrival>)
    ensures Grown(s, QueueAll(limits, s, arrivals))
    decreases |arrivals|
  {
    if arrivals != [] {
      var a := arrivals[0];
      var next, t := Queue(limits, s, a.subject, a.payload, a.recovery, a.storage).0, QueueAll(limits, s, arrivals);
      QueueAllGrows(limits, next, arrivals[1..]);
      assert t.rows[..|s.rows|] == t.rows[..|next.rows|][..|s.rows|] == s.rows;
      forall i | |s.rows| <= i < |t.rows| ensures !t.rows[i].sent {
        assert i < |next.rows| ==> t.rows[..|next.rows|][i] == next.rows[i];
      }
    }
  }

  /** One row went out; the flush goes on when its acknowledgment is there. */
  function Sent(limits: Limits, s: State, id: nat, link: Link): (t: State)
    requires 1 <= id <= |s.rows|
    ensures |s.rows| <= |t.rows| && Grown(MarkSent(Publish(s, id), id), t)
  {
    var marked := MarkSent(Publish(s, id), id);
    QueueAllGrows(limits, marked, link.arrivals(id));
    QueueAll(limits, marked, link.arrivals(id))
  }

  /** Publish and mark the rows one after another, up to the first loss. */
  function SendAll(limits: Limits, s: State, ids: seq<nat>, link: Link): (State, bool)
    requires Ids(s, ids)
    decreases |ids|
  {
    if ids == [] then (s, true)
    else
      match link.network(ids[0])
      case Lost(published) => (if published then Publish(s, ids[0]) else s, false)
      case _ => SendAll(limits, Sent(limits, s, ids[0], link), ids[1..], link)
  }

  /** What a flush amounts to: block, then one pass over everything that was eligible when it began. */
  function Flush(limits: Limits, s: State, admitted: bool, closed: seq<string>, blocking: bool,
                 link: Link): (State, bool) {
    if !admitted then (s, false)
    else
      var b := Block(s, closed);
      BlockKeepsRows(s, closed);
      if !blocking then (b, false)
      else SendAll(limits, b, Eligibles(b, 0, |b.rows|), link)
  }

  lemma {:induction false} BlockKeepsRows(s: State, closed: seq<string>)
    ensures var b := Block(s, closed);
            b.rows == s.rows && b.published == s.published && s.blocked <= b.blocked
            && (forall id | id in b.blocked && id !in s.blocked :: 1 <= id <= |s.rows| && !s.rows[id - 1].sent)
            && (forall id, i | 0 <= i < |closed| && id in UnsentOf(s.rows, closed[i]) :: id in b.blocked)
    decreases |closed|
  {
    if closed != [] {
      var next := s.(blocked := s.blocked + UnsentOf(s.rows, closed[0]));
      BlockKeepsRows(next, closed[1..]);
      var b := Block(s, closed);
      forall id, i | 0 <= i < |closed| && id in UnsentOf(s.rows, closed[i]) ensures id in b.blocked {
        if i > 0 {
          assert closed[1..][i - 1] == closed[i];
        }
      }
    }
  }

  /** Exactly the eligible ids of the range, in increasing order. */
  lemma {:induction false} EligiblesAre(s: State, after: nat, high: nat)
    requires high <= |s.rows|
    ensures var ids := Eligibles(s, after, high);
            && (forall id :: id in ids <==> after < id <= high && Eligible(s, id))
            && (forall i, j | 0 <= i < j < |ids| :: ids[i] < ids[j])
    decreases high - after
  {
    if after < high {
      EligiblesAre(s, after + 1, high);
    }
  }

  /** After any of its ids, the rest of the range is the rest of the list. */
  lemma {:induction false} EligiblesContinue(s: State, after: nat, high: nat, k: nat)
    requires high <= |s.rows| && k < |Eligibles(s, after, high)|
    ensures var ids := Eligibles(s, after, high); Eligibles(s, ids[k], high) == ids[k + 1..]
    decreases high - after
  {
    if Eligible(s, after + 1) {
      if k > 0 {
        EligiblesContinue(s, after + 1, high, k - 1);
      }
    } else {
      EligiblesContinue(s, after + 1, high, k);
    }
  }

  /** Only the rows of the range matter. */
  lemma {:induction false} EligiblesLocal(s: State, t: State, after: nat, high: nat)
    requires high <= |s.rows| && high <= |t.rows| && forall id | after < id <= high ::
             Eligible(s, id) == Eligible(t, id)
    ensures Eligibles(s, after, high) == Eligibles(t, after, high)
    decreases high - after
  {
    if after < high {
      EligiblesLocal(s, t, after + 1, high);
    }
  }

  // ---- What one pass does ----

  /** `t` is `s` with exactly these ids marked in addition, and with whatever was queued meanwhile at the end. */
  ghost predicate Marked(s: State, ids: seq<nat>, t: State) {
    && |t.rows| >= |s.rows| && t.blocked == s.blocked
    && (forall i {:trigger t.rows[i]} | 0 <= i < |s.rows| ::
          t.rows[i] == if i + 1 in ids then s.rows[i].(sent := true) else s.rows[i])
    && forall i {:trigger t.rows[i]} | |s.rows| <= i < |t.rows| :: !t.rows[i].sent
  }

  /** A pass marks exactly the ids before its first loss, and succeeds when there is none. */
  lemma {:induction false} SendAllMarks(limits: Limits, s: State, ids: seq<nat>, link: Link)
    requires Ids(s, ids)
    ensures var (t, ok), k := SendAll(limits, s, ids, link), Delivered(ids, link.network);
            (ok <==> k == |ids|) && Marked(s, ids[..k], t)
    decreases |ids|
  {
    if ids != [] && !link.network(ids[0]).Lost? {
      var next := Sent(limits, s, ids[0], link);
      SendAllMarks(limits, next, ids[1..], link);
      var k := Delivered(ids[1..], link.network);
      MarkedOneMore(s, next, ids, k, SendAll(limits, next, ids[1..], link).0);
    }
  }

  lemma MarkedOneMore(s: State, next: State, ids: seq<nat>, k: nat, t: State)
    requires ids != [] && k < |ids| && Ids(s, ids) && Grown(MarkSent(Publish(s, ids[0]), ids[0]), next)
    requires Marked(next, ids[1..][..k], t) && forall i | 0 < i < |ids| :: ids[i] <= |s.rows|
    ensures Marked(s, ids[..k + 1], t)
  {
    assert ids[..k + 1] == [ids[0]] + ids[1..][..k];
    assert forall id :: id in ids[..k + 1] <==> id == ids[0] || id in ids[1..][..k];
    var marked := MarkSent(Publish(s, ids[0]), ids[0]);
    assert forall i | 0 <= i < |s.rows| :: next.rows[i] == next.rows[..|s.rows|][i] == marked.rows[i];
    forall i | |s.rows| <= i < |t.rows| ensures !t.rows[i].sent {
      assert i < |next.rows| ==> !next.rows[i].sent && i + 1 !in ids[1..][..k];
    }
  }

  /** How many ids are handed to the network: the one a flush was lost at may be published, though it is not marked. */
  function Handed(ids: seq<nat>, network: nat -> Outcome): (n: nat)
    ensures Delivered(ids, network) <= n <= |ids| && n <= Delivered(ids, network) + 1
  {
    var k := Delivered(ids, network);
    if k < |ids| && network(ids[k]).published then k + 1 else k
  }

  lemma SentPublishes(limits: Limits, s: State, id: nat, link: Link)
    requires 1 <= id <= |s.rows|
    ensures Sent(limits, s, id, link).published == s.published + [id]
  {}

  lemma {:induction false} SendAllPublishes(limits: Limits, s: State, ids: seq<nat>, link: Link)
    requires Ids(s, ids)
    ensures SendAll(limits, s, ids, link).0.published == s.published + ids[..Handed(ids, link.network)]
    decreases |ids|
  {
    hide Grown;
    var network := link.network;
    if ids != [] && !network(ids[0]).Lost? {
      SentPublishes(limits, s, ids[0], link);
      SendAllPublishes(limits, Sent(limits, s, ids[0], link), ids[1..], link);
      assert Handed(ids, network) == Handed(ids[1..], network) + 1;
      assert ids[..Handed(ids, network)] == [ids[0]] + ids[1..][..Handed(ids[1..], network)];
    }
  }

  /** How many of the ids come before the first loss. */
  function Delivered(ids: seq<nat>, network: nat -> Outcome): (k: nat)
    ensures k <= |ids|
    ensures forall i | 0 <= i < k :: !network(ids[i]).Lost?
    ensures k < |ids| ==> network(ids[k]).Lost?
  {
    if ids == [] || network(ids[0]).Lost? then 0 else 1 + Delivered(ids[1..], network)
  }

  // ---- What every step keeps ----

  predicate Done(s: State, id: nat)
    requires 1 <= id <= |s.rows|
  {
    s.rows[id - 1].sent || id in s.blocked
  }

  predicate IsSent(s: State, id: nat) {
    1 <= id <= |s.rows| && s.rows[id - 1].sent
  }

  /** A marked row has only marked or blocked rows before it. */
  ghost predicate InOrder(s: State) {
    forall i: nat, j: nat | 1 <= i < j <= |s.rows| && IsSent(s, j) :: Done(s, i)
  }

  ghost predicate BlockedUnsent(s: State) {
    forall id | id in s.blocked :: 1 <= id <= |s.rows| && !s.rows[id - 1].sent
  }

  ghost predicate Sorted(ids: seq<nat>) {
    forall i, j | 0 <= i < j < |ids| :: ids[i] <= ids[j]
  }

  /** Everything before the id published last is done. */
  ghost predicate Passed(s: State) {
    s.published != [] ==>
      forall id: nat {:trigger Done(s, id)} | 1 <= id < s.published[|s.published| - 1] && id <= |s.rows| :: Done(s, id)
  }

  /** Publication never goes back: at most the id at the front repeats. */
  ghost predicate PublishedInOrder(s: State) {
    Sorted(s.published) && Ids(s, s.published) && Passed(s)
  }

  ghost predicate SentWasPublished(s: State) {
    forall i {:trigger s.rows[i]} | 0 <= i < |s.rows| && s.rows[i].sent :: i + 1 in s.published
  }

  ghost predicate Within(limits: Limits, s: State) {
    Pending(s.rows) <= limits.pendingMessages + RESERVE
      && PendingBytes(s.rows) <= limits.pendingBytes + RESERVE * MAX_WIRE
  }

  ghost predicate Inv(limits: Limits, s: State) {
    InOrder(s) && BlockedUnsent(s) && PublishedInOrder(s) && SentWasPublished(s) && Within(limits, s)
  }

  datatype Op =
    | QueueOp(subject: string, payload: Bytes, recovery: bool, storage: bool)
    | BlockOp(closed: seq<string>)
    | FlushOp(admitted: bool, closed: seq<string>, blocking: bool, link: Link)

  function Next(limits: Limits, s: State, op: Op): State {
    match op
    case QueueOp(subject, payload, recovery, storage) => Queue(limits, s, subject, payload, recovery, storage).0
    case BlockOp(closed) => Block(s, closed)
    case FlushOp(admitted, closed, blocking, link) => Flush(limits, s, admitted, closed, blocking, link).0
  }

  function Run(limits: Limits, s: State, ops: seq<Op>): State
    decreases |ops|
  {
    if ops == [] then s else Run(limits, Next(limits, s, ops[0]), ops[1..])
  }

  lemma QueueKeeps(limits: Limits, s: State, subject: string, payload: Bytes, recovery: bool, storage: bool)
    requires Inv(limits, s)
    ensures Inv(limits, Queue(limits, s, subject, payload, recovery, storage).0)
  {
    var t := Queue(limits, s, subject, payload, recovery, storage).0;
    assert t == s || t.rows[..|t.rows| - 1] == s.rows;
    forall id: nat | 1 <= id <= |s.rows| ensures Done(t, id) == Done(s, id) {}
    forall i: nat, j: nat | 1 <= i < j <= |t.rows| && IsSent(t, j) ensures Done(t, i) {
      assert IsSent(s, j) && Done(s, i);
    }
  }

  lemma BlockKeeps(limits: Limits, s: State, closed: seq<string>)
    requires Inv(limits, s)
    ensures Inv(limits, Block(s, closed))
  {
    BlockKeepsRows(s, closed);
    var t := Block(s, closed);
    forall id: nat | 1 <= id <= |s.rows| && Done(s, id) ensures Done(t, id) {}
    forall i: nat, j: nat | 1 <= i < j <= |t.rows| && IsSent(t, j) ensures Done(t, i) {
      assert IsSent(s, j) && Done(s, i);
    }
  }

  /** Marking the first `k` eligible ids leaves everything up to the last of them done. */
  lemma DoneUpTo(s: State, ids: seq<nat>, k: nat, t: State, id: nat)
    requires ids == Eligibles(s, 0, |s.rows|) && k <= |ids| && Marked(s, ids[..k], t)
    requires 1 <= id <= |s.rows| && (k < |ids| ==> id < ids[k])
    ensures Done(t, id)
  {
    EligiblesAre(s, 0, |s.rows|);
    assert t.rows[id - 1] == if id in ids[..k] then s.rows[id - 1].(sent := true) else s.rows[id - 1];
    if Eligible(s, id) {
      var i :| 0 <= i < |ids| && ids[i] == id;
      assert i < k;
      assert ids[..k][i] == id;
    }
  }

  lemma MarkedInOrder(s: State, ids: seq<nat>, k: nat, t: State)
    requires InOrder(s) && BlockedUnsent(s)
    requires ids == Eligibles(s, 0, |s.rows|) && k <= |ids| && Marked(s, ids[..k], t)
    ensures InOrder(t) && BlockedUnsent(t)
  {
    EligiblesAre(s, 0, |s.rows|);
    forall i: nat, j: nat | 1 <= i < j <= |t.rows| && IsSent(t, j) ensures Done(t, i) {
      assert j <= |s.rows|;
      assert t.rows[i - 1] == if i in ids[..k] then s.rows[i - 1].(sent := true) else s.rows[i - 1];
      assert t.rows[j - 1] == if j in ids[..k] then s.rows[j - 1].(sent := true) else s.rows[j - 1];
      if IsSent(s, j) {
        assert Done(s, i);
      } else {
        var n :| 0 <= n < k && ids[..k][n] == j;
        assert k < |ids| ==> ids[n] < ids[k];
        DoneUpTo(s, ids, k, t, i);
      }
    }
    forall id | id in t.blocked ensures 1 <= id <= |t.rows| && !t.rows[id - 1].sent {
      assert !Eligible(s, id);
      assert id !in ids[..k] by { assert forall x | x in ids[..k] :: x in ids; }
      assert t.rows[id - 1] == s.rows[id - 1];
    }
  }

  lemma SortedJoin(a: seq<nat>, b: seq<nat>)
    requires Sorted(a) && Sorted(b) && (a != [] && b != [] ==> a[|a| - 1] <= b[0])
    ensures Sorted(a + b)
  {
    if a != [] && b != [] {
      assert forall i | 0 <= i < |a| :: a[i] <= a[|a| - 1];
      assert forall i | 0 <= i < |b| :: b[0] <= b[i];
    }
  }

  lemma PublishedKept(limits: Limits, s: State, ids: seq<nat>, link: Link)
    requires Ids(s, ids) && ids == Eligibles(s, 0, |s.rows|) && PublishedInOrder(s)
    ensures PublishedInOrder(SendAll(limits, s, ids, link).0)
  {
    SendAllMarks(limits, s, ids, link);
    SendAllPublishes(limits, s, ids, link);
    FirstIsLater(s, ids);
    var n, t := Handed(ids, link.network), SendAll(limits, s, ids, link).0;
    SortedJoin(s.published, ids[..n]);
    IdsJoin(s, ids, n, t);
    PassedStays(s, ids, Delivered(ids, link.network), t, n);
  }

  lemma IdsJoin(s: State, ids: seq<nat>, n: nat, t: State)
    requires Ids(s, s.published) && Ids(s, ids) && n <= |ids| && |t.rows| >= |s.rows|
             && t.published == s.published + ids[..n]
    ensures Ids(t, t.published)
  {}

  lemma FirstIsLater(s: State, ids: seq<nat>)
    requires Ids(s, ids) && ids == Eligibles(s, 0, |s.rows|) && PublishedInOrder(s)
    ensures Sorted(ids) && (ids != [] && s.published != [] ==> s.published[|s.published| - 1] <= ids[0])
  {
    EligiblesAre(s, 0, |s.rows|);
    if ids != [] {
      assert ids[0] in ids;
      assert Eligible(s, ids[0]) && !Done(s, ids[0]);
    }
  }

  lemma PassedStays(s: State, ids: seq<nat>, k: nat, t: State, n: nat)
    requires ids == Eligibles(s, 0, |s.rows|) && Sorted(ids) && k <= n <= k + 1 && n <= |ids|
    requires Passed(s) && Ids(s, s.published) && Marked(s, ids[..k], t) && t.published == s.published + ids[..n]
    ensures Passed(t)
  {
    hide Eligibles, Sorted;
    if n == 0 {
      assert t.published == s.published;
      NothingMarked(s, ids[..k], t);
    } else {
      assert t.published[|t.published| - 1] == ids[..n][n - 1] == ids[n - 1];
      LastInRange(s, ids, k, n);
      PassedIsDone(s, ids, k, t, ids[n - 1]);
    }
  }

  lemma LastInRange(s: State, ids: seq<nat>, k: nat, n: nat)
    requires ids == Eligibles(s, 0, |s.rows|) && Sorted(ids) && k <= n <= k + 1 && 0 < n <= |ids|
    ensures ids[n - 1] <= |s.rows| && (k < |ids| ==> ids[n - 1] <= ids[k])
  {}

  lemma NothingMarked(s: State, ids: seq<nat>, t: State)
    requires Marked(s, ids, t) && ids == []
    ensures forall id: nat {:trigger Done(t, id)} | 1 <= id <= |s.rows| && Done(s, id) :: Done(t, id)
  {
    forall id: nat | 1 <= id <= |s.rows| && Done(s, id) ensures Done(t, id) {
      assert t.rows[id - 1] == s.rows[id - 1];
    }
  }

  lemma PassedIsDone(s: State, ids: seq<nat>, k: nat, t: State, last: nat)
    requires ids == Eligibles(s, 0, |s.rows|) && k <= |ids| && Marked(s, ids[..k], t)
    requires last <= |s.rows| && (k < |ids| ==> last <= ids[k])
    ensures forall id: nat {:trigger Done(t, id)} | 1 <= id < last && id <= |t.rows| :: Done(t, id)
  {
    forall id: nat | 1 <= id < last && id <= |t.rows| ensures Done(t, id) {
      DoneUpTo(s, ids, k, t, id);
    }
  }

  lemma SentKept(limits: Limits, s: State, ids: seq<nat>, link: Link)
    requires Ids(s, ids) && SentWasPublished(s)
    ensures SentWasPublished(SendAll(limits, s, ids, link).0)
  {
    SendAllMarks(limits, s, ids, link);
    SendAllPublishes(limits, s, ids, link);
    var k, t := Delivered(ids, link.network), SendAll(limits, s, ids, link).0;
    forall i | 0 <= i < |t.rows| && t.rows[i].sent ensures i + 1 in t.published {
      assert s.rows[i].sent || i + 1 in ids[..k];
    }
  }

  lemma {:induction false} MarkingShrinks(rows: seq<Row>, after: seq<Row>)
    requires |rows| == |after| && forall i {:trigger after[i]} | 0 <= i < |rows| ::
                                   after[i] == rows[i]
                                   || after[i] == rows[i].(sent := true)
    ensures Pending(after) <= Pending(rows) && PendingBytes(after) <= PendingBytes(rows)
    decreases |rows|
  {
    if rows != [] {
      MarkingShrinks(rows[..|rows| - 1], after[..|after| - 1]);
    }
  }

  lemma QueueWithin(limits: Limits, s: State, a: Arrival)
    requires Within(limits, s)
    ensures Within(limits, Queue(limits, s, a.subject, a.payload, a.recovery, a.storage).0)
  {
    var t := Queue(limits, s, a.subject, a.payload, a.recovery, a.storage).0;
    assert t == s || t.rows[..|t.rows| - 1] == s.rows;
  }

  lemma {:induction false} QueueAllWithin(limits: Limits, s: State, arrivals: seq<Arrival>)
    requires Within(limits, s)
    ensures Within(limits, QueueAll(limits, s, arrivals))
    decreases |arrivals|
  {
    if arrivals != [] {
      var a := arrivals[0];
      QueueWithin(limits, s, a);
      QueueAllWithin(limits, Queue(limits, s, a.subject, a.payload, a.recovery, a.storage).0, arrivals[1..]);
    }
  }

  /** What a flush marks makes room, and what is queued meanwhile is checked against it. */
  lemma {:induction false} SendAllWithin(limits: Limits, s: State, ids: seq<nat>, link: Link)
    requires Ids(s, ids) && Within(limits, s)
    ensures Within(limits, SendAll(limits, s, ids, link).0)
    decreases |ids|
  {
    if ids != [] && !link.network(ids[0]).Lost? {
      var marked := MarkSent(Publish(s, ids[0]), ids[0]);
      MarkingShrinks(s.rows, marked.rows);
      QueueAllWithin(limits, marked, link.arrivals(ids[0]));
      SendAllWithin(limits, Sent(limits, s, ids[0], link), ids[1..], link);
    }
  }

  lemma FlushKeeps(limits: Limits, s: State, admitted: bool, closed: seq<string>, blocking: bool, link: Link)
    requires Inv(limits, s)
    ensures Inv(limits, Flush(limits, s, admitted, closed, blocking, link).0)
  {
    BlockKeeps(limits, s, closed);
    var b := Block(s, closed);
    if admitted && blocking {
      var ids := Eligibles(b, 0, |b.rows|);
      var t := SendAll(limits, b, ids, link).0;
      SendAllMarks(limits, b, ids, link);
      MarkedInOrder(b, ids, Delivered(ids, link.network), t);
      PublishedKept(limits, b, ids, link);
      SentKept(limits, b, ids, link);
      SendAllWithin(limits, b, ids, link);
    }
  }

  lemma StepKeeps(limits: Limits, s: State, op: Op)
    requires Inv(limits, s)
    ensures Inv(limits, Next(limits, s, op))
  {
    match op
    case QueueOp(subject, payload, recovery, storage) => QueueKeeps(limits, s, subject, payload, recovery, storage);
    case BlockOp(closed) => BlockKeeps(limits, s, closed);
    case FlushOp(admitted, closed, blocking, link) => FlushKeeps(limits, s, admitted, closed, blocking, link);
  }

  lemma {:induction false} RunKeeps(limits: Limits, s: State, ops: seq<Op>)
    requires Inv(limits, s)
    ensures Inv(limits, Run(limits, s, ops))
    decreases |ops|
  {
    if ops != [] {
      StepKeeps(limits, s, ops[0]);
      RunKeeps(limits, Next(limits, s, ops[0]), ops[1..]);
    }
  }

  // ---- What follows for whole runs ----

  /**
   * In every reachable state a marked row was published and all rows before it are marked or
   * blocked, publications happened in the order of the outbox, and the quotas hold.
   */
  lemma MessagesLeaveInOrder(limits: Limits, ops: seq<Op>, i: nat, j: nat)
    requires 1 <= i < j <= |Run(limits, EMPTY, ops).rows|
    ensures var s := Run(limits, EMPTY, ops);
            && (s.rows[j - 1].sent ==> j in s.published && (s.rows[i - 1].sent || i in s.blocked))
            && (forall m, n | 0 <= m < n < |s.published| :: s.published[m] <= s.published[n])
            && Within(limits, s)
  {
    RunKeeps(limits, EMPTY, ops);
    var s := Run(limits, EMPTY, ops);
    if IsSent(s, j) {
      assert Done(s, i);
    }
  }

  lemma PassLeavesBlocked(limits: Limits, s: State, link: Link, id: nat)
    requires id in s.blocked
    ensures var t := SendAll(limits, s, Eligibles(s, 0, |s.rows|), link).0;
            id in t.blocked && s.published <= t.published && id !in t.published[|s.published|..]
  {
    var ids, network := Eligibles(s, 0, |s.rows|), link.network;
    EligiblesAre(s, 0, |s.rows|);
    SendAllMarks(limits, s, ids, link);
    SendAllPublishes(limits, s, ids, link);
    assert !Eligible(s, id);
    assert id !in ids[..Handed(ids, network)] by { assert forall x | x in ids[..Handed(ids, network)] :: x in ids; }
  }

  lemma StepLeavesBlocked(limits: Limits, s: State, op: Op, id: nat)
    requires id in s.blocked
    ensures var t := Next(limits, s, op);
            id in t.blocked && s.published <= t.published && id !in t.published[|s.published|..]
  {
    if op.BlockOp? {
      BlockKeepsRows(s, op.closed);
    } else if op.FlushOp? {
      BlockKeepsRows(s, op.closed);
      PassLeavesBlocked(limits, Block(s, op.closed), op.link, id);
    }
  }

  /** Once a row is blocked it is never published again and never marked, whatever happens next. */
  lemma {:induction false} BlockedStaysUnpublished(limits: Limits, s: State, ops: seq<Op>, id: nat)
    requires Inv(limits, s) && id in s.blocked
    ensures var t := Run(limits, s, ops);
            && s.published <= t.published && id !in t.published[|s.published|..]
            && id in t.blocked && 1 <= id <= |t.rows| && !t.rows[id - 1].sent
    decreases |ops|
  {
    if ops != [] {
      var next := Next(limits, s, ops[0]);
      StepLeavesBlocked(limits, s, ops[0], id);
      StepKeeps(limits, s, ops[0]);
      BlockedStaysUnpublished(limits, next, ops[1..], id);
      var t := Run(limits, s, ops);
      assert t.published[|s.published|..] == next.published[|s.published|..] + t.published[|next.published|..];
    }
  }

  /** A flush that succeeds leaves nothing behind of what it found: every such row is marked or blocked. */
  lemma FlushedMeansDone(limits: Limits, s: State, closed: seq<string>, link: Link, id: nat)
    requires Flush(limits, s, true, closed, true, link).1
    requires 1 <= id <= |s.rows|
    ensures var t := Flush(limits, s, true, closed, true, link).0; |t.rows| >= |s.rows| && Done(t, id)
  {
    BlockKeepsRows(s, closed);
    var b := Block(s, closed);
    var ids := Eligibles(b, 0, |b.rows|);
    SendAllMarks(limits, b, ids, link);
    DoneUpTo(b, ids, |ids|, SendAll(limits, b, ids, link).0, id);
  }

  /** What is queued while a flush runs is neither sent, published nor blocked by it. */
  lemma ArrivalsWait(limits: Limits, s: State, closed: seq<string>, blocking: bool, link: Link, id: nat)
    requires Inv(limits, s)
    requires |s.rows| < id <= |Flush(limits, s, true, closed, blocking, link).0.rows|
    ensures var t := Flush(limits, s, true, closed, blocking, link).0; Eligible(t, id) && id !in t.published
  {
    BlockKeeps(limits, s, closed);
    BlockKeepsRows(s, closed);
    var b := Block(s, closed);
    if blocking {
      var ids := Eligibles(b, 0, |b.rows|);
      SendAllMarks(limits, b, ids, link);
      SendAllPublishes(limits, b, ids, link);
    }
  }

  // ---- Blocked rows keep their place in the quota ----

  predicate Waits(rows: seq<Row>, id: nat) {
    1 <= id <= |rows| && !rows[id - 1].sent
  }

  function Unsent(rows: seq<Row>): set<nat> {
    set id: nat | 1 <= id <= |rows| && Waits(rows, id)
  }

  lemma {:induction false} PendingIsUnsent(rows: seq<Row>)
    ensures Pending(rows) == |Unsent(rows)|
  {
    if rows != [] {
      var rest := rows[..|rows| - 1];
      PendingIsUnsent(rest);
      assert Unsent(rows) == Unsent(rest) + if rows[|rows| - 1].sent then {} else {|rows|};
    }
  }

  /** What the blocked rows take of the byte quota. */
  function BlockedBytes(rows: seq<Row>, blocked: set<nat>): nat {
    if rows == [] then 0
    else BlockedBytes(rows[..|rows| - 1], blocked) + (if |rows| in blocked then |rows[|rows| - 1].payload| else 0)
  }

  /** Blocked rows still count as pending, and with nothing else pending they are all that counts. */
  lemma {:induction false} BlockedArePending(rows: seq<Row>, blocked: set<nat>)
    requires forall i | 0 <= i < |rows| && i + 1 in blocked :: !rows[i].sent
    ensures BlockedBytes(rows, blocked) <= PendingBytes(rows)
    ensures (forall i | 0 <= i < |rows| && !rows[i].sent :: i + 1 in blocked) ==>
              BlockedBytes(rows, blocked) == PendingBytes(rows)
  {
    if rows != [] {
      BlockedArePending(rows[..|rows| - 1], blocked);
    }
  }

  /** More rows and more blocks only add to it. */
  lemma {:induction false} BlockedBytesGrow(rows: seq<Row>, blocked: set<nat>, after: seq<Row>, more: set<nat>)
    requires |rows| <= |after| && blocked <= more
    requires forall i {:trigger after[i]} | 0 <= i < |rows| :: after[i].payload == rows[i].payload
    ensures BlockedBytes(rows, blocked) <= BlockedBytes(after, more)
    decreases |after|
  {
    if |after| > |rows| {
      BlockedBytesGrow(rows, blocked, after[..|after| - 1], more);
    } else if rows != [] {
      BlockedBytesGrow(rows[..|rows| - 1], blocked, after[..|after| - 1], more);
    }
  }

  /** Rows keep their place and their bytes, and blocks are never lifted. */
  ghost predicate RowsStay(s: State, t: State) {
    && |s.rows| <= |t.rows| && s.blocked <= t.blocked
    && forall i {:trigger t.rows[i]} | 0 <= i < |s.rows| :: t.rows[i].payload == s.rows[i].payload
  }

  lemma StepLeavesRows(limits: Limits, s: State, op: Op)
    ensures RowsStay(s, Next(limits, s, op))
  {
    if op.BlockOp? {
      BlockKeepsRows(s, op.closed);
    } else if op.FlushOp? {
      BlockKeepsRows(s, op.closed);
      var b := Block(s, op.closed);
      SendAllMarks(limits, b, Eligibles(b, 0, |b.rows|), op.link);
    }
  }

  lemma {:induction false} RunLeavesRows(limits: Limits, s: State, ops: seq<Op>)
    ensures RowsStay(s, Run(limits, s, ops))
    decreases |ops|
  {
    if ops != [] {
      var next, t := Next(limits, s, ops[0]), Run(limits, s, ops);
      StepLeavesRows(limits, s, ops[0]);
      RunLeavesRows(limits, next, ops[1..]);
      assert forall i | 0 <= i < |s.rows| :: t.rows[i].payload == next.rows[i].payload == s.rows[i].payload;
    }
  }

  predicate Known(rows: seq<Row>, payload: Bytes) {
    exists i :: 0 <= i < |rows| && rows[i].payload == payload
  }

  /** Is there a place for this message once everything that can be sent has been? */
  predicate Queueable(limits: Limits, s: State, payload: Bytes) {
    && |payload| <= MAX_WIRE && !Known(s.rows, payload)
    && |s.blocked| < limits.pendingMessages
    && BlockedBytes(s.rows, s.blocked) + |payload| <= limits.pendingBytes
  }

  lemma BlockedCount(s: State)
    requires BlockedUnsent(s)
    ensures |s.blocked| <= Pending(s.rows)
    ensures (forall i | 0 <= i < |s.rows| && !s.rows[i].sent :: i + 1 in s.blocked) ==> |s.blocked| == Pending(s.rows)
  {
    PendingIsUnsent(s.rows);
    forall id | id in s.blocked ensures id in Unsent(s.rows) {
      assert !s.rows[id - 1].sent;
    }
    SubsetSize(s.blocked, Unsent(s.rows));
    if forall i | 0 <= i < |s.rows| && !s.rows[i].sent :: i + 1 in s.blocked {
      forall id | id in Unsent(s.rows) ensures id in s.blocked {
        assert id - 1 + 1 in s.blocked;
      }
      assert Unsent(s.rows) == s.blocked;
    }
  }

  /** What `queue` accepts now is queueable; and when only blocked rows are pending, it accepts what is. */
  lemma QueueNeedsRoom(limits: Limits, s: State, subject: string, payload: Bytes)
    requires BlockedUnsent(s)
    ensures Queue(limits, s, subject, payload, false, true).1 ==> Queueable(limits, s, payload)
    ensures (forall i | 0 <= i < |s.rows| && !s.rows[i].sent :: i + 1 in s.blocked) ==>
              (Queue(limits, s, subject, payload, false, true).1 <==> Queueable(limits, s, payload))
  {
    BlockedCount(s);
    forall i | 0 <= i < |s.rows| && i + 1 in s.blocked ensures !s.rows[i].sent {
      assert 1 <= i + 1 <= |s.rows|;
    }
    BlockedArePending(s.rows, s.blocked);
  }

  /** Nothing that happens makes a message queueable that is not. */
  lemma QueueableShrinks(limits: Limits, s: State, t: State, payload: Bytes)
    requires RowsStay(s, t) && Queueable(limits, t, payload)
    ensures Queueable(limits, s, payload)
  {
    SubsetSize(s.blocked, t.blocked);
    BlockedBytesGrow(s.rows, s.blocked, t.rows, t.blocked);
    forall i | 0 <= i < |s.rows| ensures s.rows[i].payload != payload {
      assert t.rows[i].payload == s.rows[i].payload;
    }
  }

  /** Every publication is acknowledged, and nothing is queued meanwhile. */
  const QUIET: Link := Link(_ => Acked, _ => [])

  /** After a flush without a loss only blocked rows are pending, so exactly the queueable messages are accepted. */
  lemma FlushMakesRoom(limits: Limits, s: State, subject: string, payload: Bytes)
    requires Inv(limits, s)
    ensures var t := Flush(limits, s, true, [], true, QUIET).0;
            && |t.rows| == |s.rows| && t.blocked == s.blocked
            && (Queue(limits, t, subject, payload, false, true).1 <==> Queueable(limits, s, payload))
  {
    var (t, ok) := Flush(limits, s, true, [], true, QUIET);
    var ids := Eligibles(s, 0, |s.rows|);
    SendAllMarks(limits, s, ids, QUIET);
    QuietAddsNothing(limits, s, ids);
    FlushKeeps(limits, s, true, [], true, QUIET);
    forall i | 0 <= i < |t.rows| && !t.rows[i].sent ensures i + 1 in t.blocked {
      FlushedMeansDone(limits, s, [], QUIET, i + 1);
    }
    QueueNeedsRoom(limits, t, subject, payload);
    SamePlaces(s, t);
    if Queueable(limits, t, payload) {
      QueueableShrinks(limits, s, t, payload);
    }
    if Queueable(limits, s, payload) {
      QueueableShrinks(limits, t, s, payload);
    }
  }

  lemma {:induction false} QuietAddsNothing(limits: Limits, s: State, ids: seq<nat>)
    requires Ids(s, ids)
    ensures |SendAll(limits, s, ids, QUIET).0.rows| == |s.rows|
    decreases |ids|
  {
    if ids != [] {
      QuietAddsNothing(limits, Sent(limits, s, ids[0], QUIET), ids[1..]);
    }
  }

  lemma SamePlaces(s: State, t: State)
    requires |s.rows| == |t.rows| && s.blocked == t.blocked
    requires forall i {:trigger t.rows[i]} | 0 <= i < |s.rows| ::
              t.rows[i] == s.rows[i]
              || t.rows[i] == s.rows[i].(sent := true)
    ensures RowsStay(s, t) && RowsStay(t, s)
  {}

  /**
   * Blocked rows are never sent and never deleted, yet `queue` counts them. So a message can ever be
   * queued again, whatever is flushed, blocked or queued before, exactly if it is new, small enough,
   * and fits the two quotas together with what is blocked now.
   */
  lemma BlockedRowsFillTheQuota(limits: Limits, s: State, subject: string, payload: Bytes)
    requires Inv(limits, s)
    ensures (exists ops :: Queue(limits, Run(limits, s, ops), subject, payload, false, true).1)
            <==> Queueable(limits, s, payload)
  {
    if ops :| Queue(limits, Run(limits, s, ops), subject, payload, false, true).1 {
      RunKeeps(limits, s, ops);
      RunLeavesRows(limits, s, ops);
      QueueNeedsRoom(limits, Run(limits, s, ops), subject, payload);
      QueueableShrinks(limits, s, Run(limits, s, ops), payload);
    }
    if Queueable(limits, s, payload) {
      FlushMakesRoom(limits, s, subject, payload);
      var ops := [FlushOp(true, [], true, QUIET)];
      assert Run(limits, s, ops) == Run(limits, Next(limits, s, ops[0]), []);
      assert Queue(limits, Run(limits, s, ops), subject, payload, false, true).1;
    }
  }

  /** A message of a group that is closed before the next flush takes the one place there is, for good. */
  lemma QuotaCounterexample(bytes: nat, ops: seq<Op>, subject: string, payload: Bytes)
    requires 1 <= bytes
    ensures var limits := Limits(1, bytes);
            var s := Run(limits, EMPTY, [QueueOp("message", [0], false, true), BlockOp(["message"])]);
            && s == State([Row("message", [0], false)], {1}, [])
            && !Queue(limits, Run(limits, s, ops), subject, payload, false, true).1
  {
    var limits, queued := Limits(1, bytes), State([Row("message", [0], false)], {}, []);
    var start := [QueueOp("message", [0], false, true), BlockOp(["message"])];
    assert Pending([]) == 0 && PendingBytes([]) == 0;
    assert Next(limits, EMPTY, start[0]) == queued;
    assert UnsentOf(queued.rows, "message") == {1};
    assert ["message"][1..] == [];
    assert Next(limits, queued, start[1]) == State(queued.rows, {1}, []);
    assert start[1..][1..] == [];
    var s := Run(limits, EMPTY, start);
    RunKeeps(limits, EMPTY, start);
    BlockedRowsFillTheQuota(limits, s, subject, payload);
    assert !Queueable(limits, s, payload);
  }

  // ---- Batches ----

  lemma {:induction false} SendAllSplits(limits: Limits, s: State, a: seq<nat>, b: seq<nat>, link: Link)
    requires Ids(s, a + b) && Ids(s, a) && Ids(s, b)
    ensures var (t, ok) := SendAll(limits, s, a, link);
            && |t.rows| >= |s.rows|
            && SendAll(limits, s, a + b, link) == if ok then SendAll(limits, t, b, link) else (t, false)
    decreases |a|
  {
    if a == [] {
      assert a + b == b;
    } else {
      assert (a + b)[1..] == a[1..] + b;
      if !link.network(a[0]).Lost? {
        SendAllSplits(limits, Sent(limits, s, a[0], link), a[1..], b, link);
      }
    }
  }

  lemma BatchInRange(s: State, after: nat, high: nat, page: seq<nat>)
    requires high <= |s.rows| && page != [] && page <= Eligibles(s, after, high)
    ensures after < page[|page| - 1] <= high && Ids(s, page) && Sorted(page)
    ensures Eligibles(s, page[|page| - 1], high) == Eligibles(s, after, high)[|page|..]
    ensures Eligibles(s, after, high) == page + Eligibles(s, page[|page| - 1], high)
  {
    var ids := Eligibles(s, after, high);
    EligiblesAre(s, after, high);
    forall i | 0 <= i < |page| ensures page[i] == ids[i] {}
    EligiblesContinue(s, after, high, |page| - 1);
    assert ids == page + ids[|page|..];
  }

  /** Sending one batch and then everything after its last id is sending everything, whatever is queued meanwhile. */
  lemma BatchIsAStretch(limits: Limits, s: State, after: nat, high: nat, page: seq<nat>, link: Link)
    requires high <= |s.rows| && page != [] && page <= Eligibles(s, after, high)
    ensures after < page[|page| - 1] <= high && Ids(s, page)
    ensures var (t, ok) := SendAll(limits, s, page, link);
            && |t.rows| >= |s.rows|
            && SendAll(limits, s, Eligibles(s, after, high), link)
               == if ok then SendAll(limits, t, Eligibles(t, page[|page| - 1], high), link) else (t, false)
  {
    var last := page[|page| - 1];
    BatchInRange(s, after, high, page);
    SendAllSplits(limits, s, page, Eligibles(s, last, high), link);
    if SendAll(limits, s, page, link).1 {
      RestUntouched(limits, s, page, link, high);
    }
  }

  lemma RestUntouched(limits: Limits, s: State, page: seq<nat>, link: Link, high: nat)
    requires Ids(s, page) && page != [] && Sorted(page) && high <= |s.rows| && SendAll(limits, s, page, link).1
    ensures var t, last := SendAll(limits, s, page, link).0, page[|page| - 1];
            |t.rows| >= |s.rows| && Eligibles(t, last, high) == Eligibles(s, last, high)
  {
    var t := SendAll(limits, s, page, link).0;
    SendAllMarks(limits, s, page, link);
    assert page[..|page|] == page;
    LaterUntouched(s, page, t);
    EligiblesLocal(s, t, page[|page| - 1], high);
  }

  lemma LaterUntouched(s: State, page: seq<nat>, t: State)
    requires Marked(s, page, t) && page != [] && forall i | 0 <= i < |page| :: page[i] <= page[|page| - 1]
    ensures forall id | page[|page| - 1] < id <= |s.rows| :: Eligible(s, id) == Eligible(t, id)
  {
    forall id | page[|page| - 1] < id <= |s.rows| ensures Eligible(s, id) == Eligible(t, id) {
      assert id !in page;
      assert t.rows[id - 1] == s.rows[id - 1];
    }
  }

  // ---- The store ----

  class OutboxStore {
    const limits: Limits
    var rows: seq<Row>
    var blocked: set<nat>
    ghost var published: seq<nat>

    ghost function Now(): State
      reads this
    {
      State(rows, blocked, published)
    }

    ghost predicate Valid()
      reads this
    {
      Inv(limits, Now())
    }

    constructor (limits: Limits)
      ensures Valid() && this.limits == limits && Now() == EMPTY
    {
      this.limits := limits;
      rows, blocked, published := [], {}, [];
    }

    method QueueRow(subject: string, payload: Bytes, recovery: bool, storage: bool) returns (ok: bool)
      requires Valid()
      modifies this`rows
      ensures Valid()
      ensures (Now(), ok) == Queue(limits, old(Now()), subject, payload, recovery, storage)
    {
      QueueKeeps(limits, Now(), subject, payload, recovery, storage);
      ok := InsertRow(subject, payload, recovery, storage);
    }

    /** `queue`: the size, the quotas, the unique payload column. */
    method InsertRow(subject: string, payload: Bytes, recovery: bool, storage: bool) returns (ok: bool)
      modifies this`rows
      ensures (Now(), ok) == Queue(limits, old(Now()), subject, payload, recovery, storage)
    {
      if |payload| > MAX_WIRE {
        return false;
      }
      var messages, bytes := Pending(rows), PendingBytes(rows);
      var reserve := if recovery then RESERVE else 0;
      if messages >= limits.pendingMessages + reserve || bytes + |payload| > limits.pendingBytes + reserve * MAX_WIRE
          || !storage {
        return false;
      }
      if exists i :: 0 <= i < |rows| && rows[i].payload == payload {
        return false;
      }
      rows := rows + [Row(subject, payload, false)];
      return true;
    }

    method InsertRows(arrivals: seq<Arrival>)
      modifies this`rows
      ensures Now() == QueueAll(limits, old(Now()), arrivals)
    {
      ghost var whole := QueueAll(limits, Now(), arrivals);
      for i := 0 to |arrivals|
        invariant QueueAll(limits, Now(), arrivals[i..]) == whole
      {
        var a := arrivals[i];
        var _ := InsertRow(a.subject, a.payload, a.recovery, a.storage);
      }
    }

    method BlockRows(closed: seq<string>)
      requires Valid()
      modifies this`blocked
      ensures Valid()
      ensures Now() == Block(old(Now()), closed)
    {
      ghost var before := Now();
      BlockKeeps(limits, before, closed);
      for i := 0 to |closed|
        invariant rows == before.rows
        invariant Block(Now(), closed[i..]) == Block(before, closed)
      {
        blocked := blocked + UnsentOf(rows, closed[i]);
      }
    }

    /**
     * `flush_outbox`: batches of 16 up to the high-water mark amount to one pass over what was eligible
     * at the start, and it ends, though rows are queued all the time.
     */
    method FlushRows(admitted: bool, closed: seq<string>, blocking: bool, link: Link) returns (ok: bool)
      requires Valid()
      modifies this
      ensures Valid()
      ensures (Now(), ok) == Flush(limits, old(Now()), admitted, closed, blocking, link)
    {
      FlushKeeps(limits, Now(), admitted, closed, blocking, link);
      if !admitted {
        return false;
      }
      BlockRows(closed);
      if !blocking {
        return false;
      }
      ok := SendBatches(link);
    }

    method SendBatches(link: Link) returns (ok: bool)
      modifies this`rows, this`published
      ensures (Now(), ok) == SendAll(limits, old(Now()), Eligibles(old(Now()), 0, |old(rows)|), link)
    {
      ghost var whole := SendAll(limits, Now(), Eligibles(Now(), 0, |rows|), link);
      var high, after := |rows|, 0;
      while true
        invariant high <= |rows| && blocked == old(blocked)
        invariant SendAll(limits, Now(), Eligibles(Now(), after, high), link) == whole
        decreases high - after
      {
        var page := NextBatch(after, high);
        if page == [] {
          return true;
        }
        ok := SendBatch(after, high, page, link);
        if !ok {
          return false;
        }
        after := page[|page| - 1];
      }
    }

    /** `SELECT ... WHERE sent=0 AND id>after AND id<=high AND id NOT IN blocked ORDER BY id LIMIT 16`. */
    method NextBatch(after: nat, high: nat) returns (page: seq<nat>)
      requires high <= |rows|
      ensures var ids := Eligibles(Now(), after, high); page == ids[..if |ids| < BATCH then |ids| else BATCH]
    {
      page := [];
      var id := after;
      while id < high && |page| < BATCH
        invariant id <= high || id == after
        invariant |page| <= BATCH
        invariant Eligibles(Now(), after, high) == page + Eligibles(Now(), id, high)
        decreases high - id
      {
        id := id + 1;
        ghost var rest := Eligibles(Now(), id, high);
        if !rows[id - 1].sent && id !in blocked {
          assert page + ([id] + rest) == (page + [id]) + rest;
          page := page + [id];
        }
      }
    }

    method SendBatch(after: nat, high: nat, page: seq<nat>, link: Link) returns (ok: bool)
      requires high <= |rows| && page != [] && page <= Eligibles(Now(), after, high)
      modifies this`rows, this`published
      ensures |rows| >= high
      ensures after < page[|page| - 1] <= high
      ensures var whole := SendAll(limits, old(Now()), Eligibles(old(Now()), after, high), link);
              if ok then SendAll(limits, Now(), Eligibles(Now(), page[|page| - 1], high), link) == whole
              else (Now(), false) == whole
    {
      BatchIsAStretch(limits, Now(), after, high, page, link);
      ok := SendEach(page, link);
    }

    method SendEach(page: seq<nat>, link: Link) returns (ok: bool)
      requires Ids(Now(), page)
      modifies this`rows, this`published
      ensures (Now(), ok) == SendAll(limits, old(Now()), page, link)
    {
      ghost var whole := SendAll(limits, Now(), page, link);
      for i := 0 to |page|
        invariant |rows| >= old(|rows|)
        invariant SendAll(limits, Now(), page[i..], link) == whole
      {
        ok := SendRow(page[i], link);
        if !ok {
          return;
        }
      }
      return true;
    }

    method SendRow(id: nat, link: Link) returns (ok: bool)
      requires 1 <= id <= |rows|
      modifies this`rows, this`published
      ensures ok <==> !link.network(id).Lost?
      ensures ok ==> Now() == Sent(limits, old(Now()), id, link)
      ensures !ok ==> Now() == if link.network(id).published then Publish(old(Now()), id) else old(Now())
    {
      var outcome := link.network(id);
      if outcome.Lost? {
        if outcome.published {
          published := published + [id];
        }
        return false;
      }
      published := published + [id];
      rows := rows[id - 1 := rows[id - 1].(sent := true)];
      InsertRows(link.arrivals(id));
      return true;
    }
  }
}
