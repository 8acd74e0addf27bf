/**
 * The status responder: `respond_status` of crates/epochgrid-core/src/participants.rs. Each retained
 * event is one transaction, so a crash or an error between or inside them loses at most the
 * transaction it falls into; `storage(i)` says whether the i-th one of a pass commits.
 */
module Participants {

  type Text = string

  /** An indexed application event; `related` says whether it has a relation. */
  datatype Row = Row(id: string, sender: string, related: bool, content: Text)

  /** The event index in transcript order, the markers, and the ids replied to, in order. */
  datatype State = State(rows: seq<Row>, marked: set<string>, replies: seq<string>)

  const BATCH: nat := 100
  const STATUS := "/status"
  const RESPONSE := "EpochGrid service online\nNATS connected\nMLS group active"
  const SERVICE := "service"

  /** `split_once('/')`, the second half; None without a slash. */
  function DeviceOf(sender: string): (device: seq<string>)
    ensures |device| <= 1
    ensures device == [] <==> '/' !in sender
  {
    if sender == "" then []
    else if sender[0] == '/' then [sender[1..]]
    else DeviceOf(sender[1..])
  }

  predicate Wants(r: Row) {
    DeviceOf(r.sender) != [] && DeviceOf(r.sender)[0] != SERVICE && !r.related && r.content == STATUS
  }

  /** The first `limit` rows without a marker. */
  function Unmarked(rows: seq<Row>, marked: set<string>, limit: nat): seq<Row> {
    if rows == [] || limit == 0 then []
    else if rows[0].id in marked then Unmarked(rows[1..], marked, limit)
    else [rows[0]] + Unmarked(rows[1..], marked, limit - 1)
  }

  /** The reply, as it enters the index. */
  function ReplyRow(own: string, replyId: string): Row {
    Row(replyId, own, true, RESPONSE)
  }

  /** One transaction: the marker and the reply, or nothing. */
  function Respond(s: State, r: Row, own: string, replyId: string, storage: bool): (State, bool) {
    if !storage then (s, false)
    else if r.id in s.marked then (s, true)
    else if DeviceOf(r.sender) == [] then (s, false)
    else if Wants(r) then (State(s.rows + [ReplyRow(own, replyId)], s.marked + {r.id}, s.replies + [r.id]), true)
    else (s.(marked := s.marked + {r.id}), true)
  }

  /** A pass over the selected rows, up to the first failure; `ids(i)` is the id of the i-th reply. */
  function RespondEach(s: State, rows: seq<Row>, own: string, ids: nat -> string, storage: nat -> bool): (State, bool)
    decreases |rows|
  {
    if rows == [] then (s, true)
    else
      var (next, ok) := Respond(s, rows[0], own, ids(|rows|), storage(|rows|));
      if ok then RespondEach(next, rows[1..], own, ids, storage) else (next, false)
  }

  function Pass(s: State, own: string, ids: nat -> string, storage: nat -> bool): (State, bool) {
    RespondEach(s, Unmarked(s.rows, s.marked, BATCH), own, ids, storage)
  }

  datatype Op = Arrive(row: Row) | PassOp(own: string, ids: nat -> string, storage: nat -> bool)

  function Next(s: State, op: Op): State {
    match op
    case Arrive(row) => s.(rows := s.rows + [row])
    case PassOp(own, ids, storage) => Pass(s, own, ids, storage).0
  }

  function Run(s: State, ops: seq<Op>): State
    decreases |ops|
  {
    if ops == [] then s else Run(Next(s, ops[0]), ops[1..])
  }

  const START := State([], {}, [])

  /** Replies are to distinct, marked events that asked for one; marked events came from a device. */
  ghost predicate Inv(s: State) {
    && (forall i, j | 0 <= i < j < |s.replies| :: s.replies[i] != s.replies[j])
    && (forall i | 0 <= i < |s.replies| :: s.replies[i] in s.marked && Asked(s, s.replies[i]))
    && (forall id | id in s.marked :: FromDevice(s.rows, id))
  }

  ghost predicate FromDevice(rows: seq<Row>, id: string) {
    exists r :: r in rows && r.id == id && '/' in r.sender
  }

  ghost predicate Asked(s: State, id: string) {
    exists r :: r in s.rows && r.id == id && Wants(r)
  }

  ghost predicate Forward(s: State, t: State) {
    s.rows <= t.rows && s.marked <= t.marked && s.replies <= t.replies
  }

  lemma AskedStays(s: State, t: State)
    requires Inv(s) && s.rows <= t.rows && s.marked <= t.marked && t.replies == s.replies
    requires forall id | id in t.marked && id !in s.marked :: FromDevice(t.rows, id)
    ensures Inv(t)
  {
    forall i | 0 <= i < |t.replies| ensures Asked(t, t.replies[i]) {
      assert Asked(s, s.replies[i]);
      var r :| r in s.rows && r.id == s.replies[i] && Wants(r);
      assert r in t.rows;
    }
    forall id | id in t.marked ensures FromDevice(t.rows, id) {
      if id in s.marked {
        assert FromDevice(s.rows, id);
        var r :| r in s.rows && r.id == id && '/' in r.sender;
        assert r in t.rows;
      }
    }
  }

  lemma RespondKeeps(s: State, r: Row, own: string, replyId: string, storage: bool)
    requires Inv(s) && r in s.rows
    ensures var (t, ok) := Respond(s, r, own, replyId, storage); Inv(t) && Forward(s, t) && (ok ==> r.id in t.marked)
  {
    var t := Respond(s, r, own, replyId, storage).0;
    var mid := t.(replies := s.replies);
    assert r in t.rows;
    assert t.marked != s.marked ==> FromDevice(t.rows, r.id);
    AskedStays(s, mid);
    if t != mid {
      assert Wants(r) && Asked(t, r.id);
      forall i | 0 <= i < |t.replies| ensures Asked(t, t.replies[i]) {
        if i < |s.replies| {
          assert Asked(mid, mid.replies[i]);
        }
      }
    }
  }

  lemma {:induction false} PassKeeps(s: State, rows: seq<Row>, own: string, ids: nat -> string, storage: nat -> bool)
    requires Inv(s) && forall r | r in rows :: r in s.rows
    ensures var (t, ok) := RespondEach(s, rows, own, ids, storage);
            && Inv(t) && Forward(s, t)
            && (ok ==> forall r | r in rows :: r.id in t.marked)
    decreases |rows|
  {
    if rows != [] {
      RespondKeeps(s, rows[0], own, ids(|rows|), storage(|rows|));
      var (next, ok) := Respond(s, rows[0], own, ids(|rows|), storage(|rows|));
      if ok {
        forall r | r in rows[1..] ensures r in next.rows {
          assert r in s.rows;
        }
        PassKeeps(next, rows[1..], own, ids, storage);
        assert forall r | r in rows :: r == rows[0] || r in rows[1..];
      }
    }
  }

  lemma {:induction false} UnmarkedAre(rows: seq<Row>, marked: set<string>, limit: nat)
    ensures var some := Unmarked(rows, marked, limit);
            && |some| <= limit
            && (forall r | r in some :: r in rows && r.id !in marked)
            && (|some| < limit ==> forall r | r in rows && r.id !in marked :: r in some)
    decreases |rows|
  {
    if rows != [] && limit != 0 {
      UnmarkedAre(rows[1..], marked, if rows[0].id in marked then limit else limit - 1);
      assert forall r | r in rows :: r == rows[0] || r in rows[1..];
    }
  }

  lemma {:induction false} RunKeeps(s: State, ops: seq<Op>)
    requires Inv(s)
    ensures Inv(Run(s, ops)) && Forward(s, Run(s, ops))
    decreases |ops|
  {
    if ops != [] {
      match ops[0] {
        case Arrive(row) => AskedStays(s, Next(s, ops[0]));
        case PassOp(own, ids, storage) =>
          UnmarkedAre(s.rows, s.marked, BATCH);
          PassKeeps(s, Unmarked(s.rows, s.marked, BATCH), own, ids, storage);
      }
      RunKeeps(Next(s, ops[0]), ops[1..]);
    }
  }

  /**
   * Across passes, failures, crashes and retransmissions an event gets at most one reply, and only if it
   * asked for one.
   */
  lemma AtMostOneReply(ops: seq<Op>)
    ensures var s := Run(START, ops);
            && (forall i, j | 0 <= i < j < |s.replies| :: s.replies[i] != s.replies[j])
            && (forall i | 0 <= i < |s.replies| :: Asked(s, s.replies[i]))
  {
    RunKeeps(START, ops);
  }

  /** A reply never gets one, whichever service wrote it, so two services cannot keep answering each other. */
  lemma RepliesGetNoReply(ops: seq<Op>, id: string)
    requires forall r | r in Run(START, ops).rows && r.id == id :: r == ReplyRow(r.sender, id)
    ensures id !in Run(START, ops).replies
  {
    AtMostOneReply(ops);
    var s := Run(START, ops);
    assert !Asked(s, id);
    forall i | 0 <= i < |s.replies| ensures s.replies[i] != id {
      assert Asked(s, s.replies[i]);
    }
  }

  /** A completed pass that was not cut short by the limit leaves no earlier event unhandled. */
  lemma CompletedPassHandlesAll(s: State, own: string, ids: nat -> string, storage: nat -> bool, r: Row)
    requires Inv(s) && Pass(s, own, ids, storage).1 && |Unmarked(s.rows, s.marked, BATCH)| < BATCH && r in s.rows
    ensures r.id in Pass(s, own, ids, storage).0.marked
  {
    UnmarkedAre(s.rows, s.marked, BATCH);
    PassKeeps(s, Unmarked(s.rows, s.marked, BATCH), own, ids, storage);
  }

  // ---- Senders without a device part ----

  /** Is this the first of the rows with its id? The others are skipped once it has been handled. */
  predicate Leads(rows: seq<Row>, i: nat)
    requires i < |rows|
  {
    forall j | 0 <= j < i :: rows[j].id != rows[i].id
  }

  lemma {:induction false} RespondEachCompletesIff(s: State, rows: seq<Row>, own: string, ids: nat -> string,
                                                   storage: nat -> bool)
    ensures RespondEach(s, rows, own, ids, storage).1
            <==> && (forall n | 1 <= n <= |rows| :: storage(n))
                 && (forall i | 0 <= i < |rows| && rows[i].id !in s.marked && Leads(rows, i) :: '/' in rows[i].sender)
    decreases |rows|
  {
    if rows != [] {
      var (next, ok) := Respond(s, rows[0], own, ids(|rows|), storage(|rows|));
      assert Leads(rows, 0);
      if ok {
        var rest := rows[1..];
        RespondEachCompletesIff(next, rest, own, ids, storage);
        forall i: nat | i < |rest|
          ensures rest[i] == rows[i + 1]
          ensures rest[i].id !in next.marked && Leads(rest, i) <==> rest[i].id !in s.marked && Leads(rows, i + 1)
        {
          LeadsLater(rows, i);
        }
      }
    }
  }

  lemma LeadsLater(rows: seq<Row>, i: nat)
    requires i + 1 < |rows|
    ensures Leads(rows, i + 1) <==> Leads(rows[1..], i) && rows[0].id != rows[i + 1].id
  {
    if Leads(rows[1..], i) && rows[0].id != rows[i + 1].id {
      forall j | 0 <= j < i + 1 ensures rows[j].id != rows[i + 1].id {
        assert j > 0 ==> rows[1..][j - 1].id != rows[1..][i].id;
      }
    }
    if Leads(rows, i + 1) {
      forall j | 0 <= j < i ensures rows[1..][j].id != rows[1..][i].id {
        assert rows[j + 1].id != rows[i + 1].id;
      }
    }
  }

  /** An id is made from the sender, so copies of a message agree on it. */
  ghost predicate SendersAgree(rows: seq<Row>) {
    forall q, r | q in rows && r in rows && q.id == r.id :: q.sender == r.sender
  }

  /**
   * A pass completes exactly when all its transactions commit and no first copy of a selected
   * message comes from a sender without a device part; with ids made from senders, no selected row.
   */
  lemma PassCompletesIff(s: State, own: string, ids: nat -> string, storage: nat -> bool)
    ensures var rows := Unmarked(s.rows, s.marked, BATCH);
            Pass(s, own, ids, storage).1
            <==> && (forall n | 1 <= n <= |rows| :: storage(n))
                 && (forall i | 0 <= i < |rows| && Leads(rows, i) :: '/' in rows[i].sender)
    ensures var rows := Unmarked(s.rows, s.marked, BATCH);
            SendersAgree(s.rows) ==>
              (Pass(s, own, ids, storage).1
               <==> (forall n | 1 <= n <= |rows| :: storage(n)) && forall r | r in rows :: '/' in r.sender)
  {
    var rows := Unmarked(s.rows, s.marked, BATCH);
    UnmarkedAre(s.rows, s.marked, BATCH);
    RespondEachCompletesIff(s, rows, own, ids, storage);
    if SendersAgree(s.rows) {
      forall r | r in rows ensures exists i :: 0 <= i < |rows| && Leads(rows, i) && rows[i].sender == r.sender {
        var k :| 0 <= k < |rows| && rows[k] == r;
        var i := FirstCopy(rows, k);
        assert rows[i] in s.rows && rows[k] in s.rows;
      }
    }
  }

  lemma {:induction false} FirstCopy(rows: seq<Row>, k: nat) returns (i: nat)
    requires k < |rows|
    ensures i < |rows| && Leads(rows, i) && rows[i].id == rows[k].id
    decreases k
  {
    if Leads(rows, k) {
      i := k;
    } else {
      var j :| 0 <= j < k && rows[j].id == rows[k].id;
      i := FirstCopy(rows, j);
    }
  }

  /** What was selected and is still unmarked is selected again. */
  lemma {:induction false} StillSelected(rows: seq<Row>, marked: set<string>, limit: nat,
                                         after: seq<Row>, marked': set<string>, limit': nat, r: Row)
    requires r in Unmarked(rows, marked, limit)
    requires rows <= after && marked <= marked' && limit <= limit' && r.id !in marked'
    ensures r in Unmarked(after, marked', limit')
    decreases |rows|
  {
    assert after[1..][..|rows| - 1] == rows[1..];
    if rows[0].id in marked {
      StillSelected(rows[1..], marked, limit, after[1..], marked', limit', r);
    } else if rows[0] != r || r in Unmarked(rows[1..], marked, limit - 1) {
      var left := if rows[0].id in marked' then limit' else limit' - 1;
      StillSelected(rows[1..], marked, limit - 1, after[1..], marked', left, r);
    }
  }

  /**
   * Once a message of a sender without a device part is selected, every later pass fails and the
   * message stays unmarked, whatever arrives and whatever the passes do.
   */
  lemma NoDeviceStopsEveryPass(s: State, ops: seq<Op>, r: Row, own: string, ids: nat -> string, storage: nat -> bool)
    requires Inv(s) && r in Unmarked(s.rows, s.marked, BATCH) && '/' !in r.sender
    requires SendersAgree(Run(s, ops).rows)
    ensures r.id !in Run(s, ops).marked
    ensures !Pass(Run(s, ops), own, ids, storage).1
  {
    var t := Run(s, ops);
    RunKeeps(s, ops);
    UnmarkedAre(s.rows, s.marked, BATCH);
    assert r in t.rows;
    assert !FromDevice(t.rows, r.id);
    StillSelected(s.rows, s.marked, BATCH, t.rows, t.marked, BATCH, r);
    PassCompletesIff(t, own, ids, storage);
  }

  /** One message whose sender is a bare user name: no pass after it completes, with everything working. */
  lemma NoDeviceCounterexample(ops: seq<Op>, own: string, ids: nat -> string)
    requires SendersAgree(Run(Run(START, [Arrive(Row("1", "alice", false, STATUS))]), ops).rows)
    ensures !Pass(Run(Run(START, [Arrive(Row("1", "alice", false, STATUS))]), ops), own, ids, _ => true).1
  {
    var r := Row("1", "alice", false, STATUS);
    var s := Run(START, [Arrive(r)]);
    RunKeeps(START, [Arrive(r)]);
    var ops' := [Arrive(r)];
    assert Next(START, ops'[0]) == State([r], {}, []);
    assert s == Run(State([r], {}, []), ops'[1..]) == State([r], {}, []);
    assert Unmarked(s.rows, s.marked, BATCH) == [r] + Unmarked([], {}, BATCH - 1);
    NoDeviceStopsEveryPass(s, ops, r, own, ids, _ => true);
  }

  // ---- The store ----

  class StatusService {
    const own: string
    var s: State

    constructor (own: string)
      ensures this.own == own && s == START && Inv(s)
    {
      this.own := own;
      s := START;
    }

    method RespondStatus(ids: nat -> string, storage: nat -> bool) returns (replies: nat, ok: bool)
      requires Inv(s)
      modifies this`s
      ensures Inv(s) && Forward(old(s), s)
      ensures (s, ok) == Pass(old(s), own, ids, storage)
      ensures replies == |s.replies| - |old(s).replies|
    {
      var rows := Unmarked(s.rows, s.marked, BATCH);
      UnmarkedAre(s.rows, s.marked, BATCH);
      PassKeeps(s, rows, own, ids, storage);
      ghost var whole := RespondEach(s, rows, own, ids, storage);
      replies := 0;
      for i := 0 to |rows|
        invariant RespondEach(s, rows[i..], own, ids, storage) == whole
        invariant |s.replies| == |old(s).replies| + replies
      {
        var n := |s.replies|;
        ok := RespondOne(rows[i], ids(|rows| - i), storage(|rows| - i));
        replies := replies + (|s.replies| - n);
        if !ok {
          return;
        }
      }
      ok := true;
    }

    method RespondOne(r: Row, id: string, storage: bool) returns (ok: bool)
      modifies this`s
      ensures (s, ok) == Respond(old(s), r, own, id, storage)
      ensures |old(s).replies| <= |s.replies|
    {
      var committed := s;
      if r.id in s.marked {
        return storage;
      }
      s := s.(marked := s.marked + {r.id});
      var device := DeviceOf(r.sender);
      if device == [] || !storage {
        s := committed;
        return false;
      }
      if device[0] == SERVICE || r.related || r.content != STATUS {
        return true;
      }
      s := s.(rows := s.rows + [ReplyRow(own, id)], replies := s.replies + [r.id]);
      return true;
    }
  }
}
