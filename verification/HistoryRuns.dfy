/**
 * Delivery, redelivery, acknowledgment, crashes and processing in any order: the tables are always
 * a pure fold over a prefix of the stream.
 */
module HistoryRuns {
  import opened Prelude
  import opened Wire
  import opened History

  datatype Message = Message(sequence: nat, subject: string, payload: Bytes)

  /** The filtered stream: sequences grow. */
  ghost predicate ValidStream(stream: seq<Message>) {
    && (forall i, j | 0 <= i < j < |stream| :: stream[i].sequence < stream[j].sequence)
  }

  // ---- The system ----

  /** The client's committed tables and the server's acknowledgment floor. */
  datatype System = System(t: Tables, acked: nat)

  /**
   * A fetch is one delivery: with one message in flight the server sends the first unacknowledged
   * message or repeats an earlier one; `acknowledged` says whether the acknowledgment arrives, so a
   * crash after staging is a fetch that is not acknowledged. A crash inside a pass is a pass whose
   * storage fails from some row on.
   */
  datatype Op = Fetch(i: nat, stored: bool, acknowledged: bool) | Process(storage: nat -> bool)

  ghost function Next(c: Client, stream: seq<Message>, s: System, op: Op): System {
    match op
    case Fetch(i, stored, acknowledged) =>
      if i < |stream| && i <= s.acked then
        var (t, ok) := Stage(s.t, stream[i].sequence, stream[i].subject, stream[i].payload, stored);
        System(t, if ok && acknowledged && i == s.acked then s.acked + 1 else s.acked)
      else s
    case Process(storage) => s.(t := ProcessAll(c, s.t, Report(0, 0, 0), storage).0)
  }

  ghost function Run(c: Client, stream: seq<Message>, s: System, ops: seq<Op>): System
    decreases |ops|
  {
    if ops == [] then s else Run(c, stream, Next(c, stream, s, ops[0]), ops[1..])
  }

  function Start(local: Local): System {
    System(Tables(map[], local), 0)
  }

  // ---- The fold ----

  function VerdictAt(c: Client, l: Local, m: Message): Verdict {
    Judge(c, l, m.subject, m.payload, m.sequence)
  }

  function Step(c: Client, l: Local, m: Message): Local {
    if InGroup(c, m.subject) then After(c, l, VerdictAt(c, l, m), m.payload, m.sequence) else l
  }

  /** Every message of the group exactly once, in stream order. */
  function Fold(c: Client, l: Local, stream: seq<Message>): Local {
    if stream == [] then l else Step(c, Fold(c, l, stream[..|stream| - 1]), stream[|stream| - 1])
  }

  /** The state of row `i` once the rows before `k` have been handled. */
  function StateAt(c: Client, l: Local, stream: seq<Message>, i: nat, k: nat): DeliveryState
    requires i < |stream|
  {
    if i >= k || !InGroup(c, stream[i].subject) then Pending
    else if VerdictAt(c, Fold(c, l, stream[..i]), stream[i]).Reject? then Rejected
    else Processed
  }

  /** The row of a staged message is the message, with that state. */
  ghost predicate RowMatches(c: Client, l: Local, stream: seq<Message>, t: Tables, k: nat, i: nat)
    requires i < |stream|
  {
    && stream[i].sequence in t.deliveries
    && t.deliveries[stream[i].sequence] == Delivery(stream[i].subject, stream[i].payload, StateAt(c, l, stream, i, k))
  }

  ghost predicate RowsMatch(c: Client, l: Local, stream: seq<Message>, t: Tables, n: nat, k: nat)
    requires n <= |stream|
  {
    && (forall i | 0 <= i < n :: RowMatches(c, l, stream, t, k, i))
    && (forall s {:trigger s in t.deliveries} | s in t.deliveries :: exists i :: 0 <= i < n && stream[i].sequence == s)
  }

  /** A message no pass gets past: after everything before it, MLS fails on it for a reason of its own. */
  predicate BlockedAt(c: Client, l: Local, stream: seq<Message>, i: nat)
    requires i < |stream|
  {
    InGroup(c, stream[i].subject) && VerdictAt(c, Fold(c, l, stream[..i]), stream[i]).Stuck?
  }

  /** The tables are the first `n` messages staged and the first `k` of them folded, none of which blocks. */
  ghost predicate Explains(c: Client, l: Local, stream: seq<Message>, t: Tables, n: nat, k: nat) {
    && k <= n <= |stream| && RowsMatch(c, l, stream, t, n, k) && t.local == Fold(c, l, stream[..k])
    && forall i | 0 <= i < k :: !BlockedAt(c, l, stream, i)
  }

  /** What the tables of a client hold before the run: nothing decrypted twice, nothing shown without its plaintext. */
  ghost predicate Fresh(c: Client, l: Local) {
    && (forall p | p in l.transcript ::
         KnownPayload(c, l, p) && l.transcript[p].plaintext.Some?
         && l.transcript[p].sequence.None?)
    && (forall p {:trigger KnownPayload(c, l, p)} | KnownPayload(c, l, p) && IsApplication(c, p) :: p in l.transcript)
  }

  predicate IsApplication(c: Client, p: Bytes) {
    c.parse(p).Some? && c.parse(p).value.group == c.mlsId && c.parse(p).value.content == Application
  }

  /** What every fold of a fresh start keeps. */
  ghost predicate Kept(c: Client, l: Local) {
    && (forall p | p in l.transcript :: KnownPayload(c, l, p) && l.transcript[p].plaintext.Some?)
    && (forall p {:trigger KnownPayload(c, l, p)} | KnownPayload(c, l, p) && IsApplication(c, p) :: p in l.transcript)
  }

  /** MLS is asked about the message and fails. */
  predicate Fails(c: Client, l: Local, m: Message) {
    && BeforeJoin(c, m.payload) == Some(false) && !KnownPayload(c, l, m.payload)
    && if m.subject == c.handshake then
         HasContent(c, m.payload, Commit) && c.commit(l.group, m.payload, m.sequence).Failed?
       else
         HasContent(c, m.payload, Application) && c.active(l.group) && c.open(l.group, m.payload).Failed?
  }

  /** Nothing else ends a pass: the unique payload column of the transcript never stands in the way. */
  lemma StuckIff(c: Client, l: Local, m: Message)
    requires Kept(c, l)
    ensures VerdictAt(c, l, m).Stuck? <==> Fails(c, l, m)
  {}

  lemma StepKept(c: Client, l: Local, m: Message)
    requires Kept(c, l)
    ensures Kept(c, Step(c, l, m))
  {
    var v, after := VerdictAt(c, l, m), Step(c, l, m);
    forall p | KnownPayload(c, after, p) && IsApplication(c, p) ensures p in after.transcript {
      assert KnownPayload(c, l, p) || p == m.payload;
    }
  }

  lemma {:induction false} FoldKept(c: Client, l: Local, stream: seq<Message>)
    requires Kept(c, l)
    ensures Kept(c, Fold(c, l, stream))
    decreases |stream|
  {
    if stream != [] {
      FoldKept(c, l, stream[..|stream| - 1]);
      StepKept(c, Fold(c, l, stream[..|stream| - 1]), stream[|stream| - 1]);
    }
  }

  // ---- One row ----

  /** Messages of other groups do not matter. */
  lemma {:induction false} FoldSkips(c: Client, l: Local, stream: seq<Message>, k: nat, i: nat)
    requires k <= i <= |stream| && forall j | k <= j < i :: !InGroup(c, stream[j].subject)
    ensures Fold(c, l, stream[..i]) == Fold(c, l, stream[..k])
    decreases i
  {
    if k < i {
      assert stream[..i][..i - 1] == stream[..i - 1];
      FoldSkips(c, l, stream, k, i - 1);
    }
  }

  /** Which message the next pending row is. */
  lemma NextIndex(c: Client, l: Local, stream: seq<Message>, t: Tables, n: nat, k: nat) returns (i: nat)
    requires ValidStream(stream) && Explains(c, l, stream, t, n, k) && PendingRows(c, t) != {}
    ensures k <= i < n && stream[i].sequence == NextPending(c, t) && InGroup(c, stream[i].subject)
    ensures forall j | k <= j < i :: !InGroup(c, stream[j].subject)
  {
    var s := NextPending(c, t);
    i :| 0 <= i < n && stream[i].sequence == s;
    assert RowMatches(c, l, stream, t, k, i);
    forall j | k <= j < i ensures !InGroup(c, stream[j].subject) {
      assert RowMatches(c, l, stream, t, k, j);
      assert !IsPending(c, t, stream[j].sequence);
    }
  }

  lemma HandleExplains(c: Client, l: Local, stream: seq<Message>, t: Tables, n: nat, k: nat, i: nat)
    requires ValidStream(stream) && Explains(c, l, stream, t, n, k)
    requires k <= i < n && InGroup(c, stream[i].subject) && forall j | k <= j < i :: !InGroup(c, stream[j].subject)
    ensures stream[i].sequence in t.deliveries
    ensures VerdictOf(c, t, stream[i].sequence) == VerdictAt(c, Fold(c, l, stream[..i]), stream[i])
    ensures !BlockedAt(c, l, stream, i) ==> Explains(c, l, stream, Handle(c, t, stream[i].sequence), n, i + 1)
  {
    FoldSkips(c, l, stream, k, i);
    assert RowMatches(c, l, stream, t, k, i);
    assert stream[..i + 1][..i] == stream[..i];
    var after, k' := Handle(c, t, stream[i].sequence), i + 1;
    forall j | 0 <= j < n ensures RowMatches(c, l, stream, after, k', j) {
      assert RowMatches(c, l, stream, t, k, j);
      assert j != i ==> StateAt(c, l, stream, j, k') == StateAt(c, l, stream, j, k);
    }
    forall s | s in after.deliveries ensures exists j :: 0 <= j < n && stream[j].sequence == s {
      assert s in t.deliveries;
    }
  }

  // ---- Steps ----

  lemma StageExplains(c: Client, l: Local, stream: seq<Message>, t: Tables, n: nat, k: nat, i: nat, storage: bool)
    returns (n': nat)
    requires ValidStream(stream) && Explains(c, l, stream, t, n, k) && i <= n && i < |stream|
    ensures var (after, ok) := Stage(t, stream[i].sequence, stream[i].subject, stream[i].payload, storage);
            n <= n' && Explains(c, l, stream, after, n', k) && (ok ==> i < n')
  {
    var m := stream[i];
    var (after, ok) := Stage(t, m.sequence, m.subject, m.payload, storage);
    if i < n {
      assert RowMatches(c, l, stream, t, k, i);
      n' := n;
    } else if after == t {
      assert forall j | 0 <= j < n :: stream[j].sequence != m.sequence;
      assert m.sequence !in t.deliveries;
      n' := n;
    } else {
      n' := n + 1;
      forall j | 0 <= j < n' ensures RowMatches(c, l, stream, after, k, j) {
        if j < n {
          assert RowMatches(c, l, stream, t, k, j);
        }
      }
      forall s | s in after.deliveries ensures exists j :: 0 <= j < n' && stream[j].sequence == s {
        if s in t.deliveries {
          var j :| 0 <= j < n && stream[j].sequence == s;
        } else {
          assert stream[n].sequence == s;
        }
      }
    }
  }

  /** What the pass needs of one row. */
  ghost predicate Passable(c: Client, l: Local, stream: seq<Message>, storage: nat -> bool, i: nat)
    requires i < |stream|
  {
    InGroup(c, stream[i].subject) ==> storage(stream[i].sequence) && !BlockedAt(c, l, stream, i)
  }

  /**
   * A pass, wherever it stops, folds further messages. It gets through, and leaves nothing of the
   * group pending, exactly when storage works for every row it still has to handle and MLS fails
   * on none of them.
   */
  lemma {:induction false} ProcessExplains(c: Client, l: Local, stream: seq<Message>, t: Tables, r: Report,
                                           storage: nat -> bool, n: nat, k: nat) returns (k': nat)
    requires ValidStream(stream) && Kept(c, l) && Explains(c, l, stream, t, n, k)
    ensures var (after, report, ok) := ProcessAll(c, t, r, storage);
            && k <= k' <= n && Explains(c, l, stream, after, n, k')
            && report.unavailable == r.unavailable
            && (ok <==> PendingRows(c, after) == {})
            && (ok <==> forall i | k <= i < n :: Passable(c, l, stream, storage, i))
    decreases |PendingRows(c, t)|
  {
    if PendingRows(c, t) == {} {
      k' := k;
      NoneLeft(c, l, stream, t, n, k);
    } else {
      var s := NextPending(c, t);
      var i := NextRow(c, l, stream, t, n, k);
      if Passable(c, l, stream, storage, i) {
        var payload := t.deliveries[s].payload;
        NoGaps(c, t.local, t.deliveries[s].subject, payload, s, r);
        var counted := Counted(r, VerdictOf(c, t, s), t.local, payload);
        k' := ProcessExplains(c, l, stream, Handle(c, t, s), counted, storage, n, i + 1);
        assert forall j | k <= j < i :: Passable(c, l, stream, storage, j);
      } else {
        k' := k;
      }
    }
  }

  lemma NoneLeft(c: Client, l: Local, stream: seq<Message>, t: Tables, n: nat, k: nat)
    requires Explains(c, l, stream, t, n, k) && PendingRows(c, t) == {}
    ensures forall j | k <= j < n :: !InGroup(c, stream[j].subject)
  {
    forall j | k <= j < n ensures !InGroup(c, stream[j].subject) {
      assert RowMatches(c, l, stream, t, k, j);
      assert stream[j].sequence !in PendingRows(c, t);
    }
  }

  lemma NextRow(c: Client, l: Local, stream: seq<Message>, t: Tables, n: nat, k: nat) returns (i: nat)
    requires ValidStream(stream) && Explains(c, l, stream, t, n, k) && PendingRows(c, t) != {} && Kept(c, l)
    ensures k <= i < n && InGroup(c, stream[i].subject) && Kept(c, t.local) && stream[i].sequence == NextPending(c, t)
    ensures forall j | k <= j < i :: !InGroup(c, stream[j].subject)
    ensures var s := NextPending(c, t);
            && (VerdictOf(c, t, s).Stuck? <==> BlockedAt(c, l, stream, i))
            && (!BlockedAt(c, l, stream, i) ==> Explains(c, l, stream, Handle(c, t, s), n, i + 1))
            && PendingRows(c, Handle(c, t, s)) == PendingRows(c, t) - {s}
  {
    i := NextIndex(c, l, stream, t, n, k);
    HandleExplains(c, l, stream, t, n, k, i);
    FoldKept(c, l, stream[..k]);
  }

  /** No message is known without being shown, so no row is counted as unavailable. */
  lemma NoGaps(c: Client, l: Local, subject: string, payload: Bytes, sequence: nat, r: Report)
    requires Kept(c, l)
    ensures Counted(r, Judge(c, l, subject, payload, sequence), l, payload).unavailable == r.unavailable
  {
    if Judge(c, l, subject, payload, sequence).Known? {
      assert KnownPayload(c, l, payload) && IsApplication(c, payload);
    }
  }

  ghost predicate Explained(c: Client, l: Local, stream: seq<Message>, s: System) {
    exists n: nat, k: nat :: s.acked <= n && Explains(c, l, stream, s.t, n, k)
  }

  lemma StepExplained(c: Client, l: Local, stream: seq<Message>, s: System, op: Op)
    requires ValidStream(stream) && Kept(c, l) && Explained(c, l, stream, s)
    ensures Explained(c, l, stream, Next(c, stream, s, op))
  {
    var n: nat, k: nat :| s.acked <= n && Explains(c, l, stream, s.t, n, k);
    match op
    case Fetch(i, stored, acknowledged) =>
      if i < |stream| && i <= s.acked {
        var n' := StageExplains(c, l, stream, s.t, n, k, i, stored);
        assert Explains(c, l, stream, Next(c, stream, s, op).t, n', k);
      }
    case Process(storage) =>
      var k' := ProcessExplains(c, l, stream, s.t, Report(0, 0, 0), storage, n, k);
      assert Explains(c, l, stream, Next(c, stream, s, op).t, n, k');
  }

  /** From a fresh start, whatever happens in whatever order, the tables are explained by the stream. */
  lemma {:induction false} RunExplained(c: Client, l: Local, stream: seq<Message>, s: System, ops: seq<Op>)
    requires ValidStream(stream) && Kept(c, l) && Explained(c, l, stream, s)
    ensures Explained(c, l, stream, Run(c, stream, s, ops))
    decreases |ops|
  {
    if ops != [] {
      StepExplained(c, l, stream, s, ops[0]);
      RunExplained(c, l, stream, Next(c, stream, s, ops[0]), ops[1..]);
    }
  }

  lemma StartExplained(c: Client, l: Local, stream: seq<Message>)
    ensures Explained(c, l, stream, Start(l))
  {
    assert stream[..0] == [];
    assert Explains(c, l, stream, Start(l).t, 0, 0);
  }

  // ---- What follows for whole runs ----

  ghost predicate Sent(stream: seq<Message>, q: nat, d: Delivery) {
    exists i :: 0 <= i < |stream| && stream[i] == Message(q, d.subject, d.payload)
  }

  /** Everything acknowledged is staged with the bytes of the stream, and nothing else is staged. */
  lemma AcknowledgedIsStaged(c: Client, l: Local, stream: seq<Message>, ops: seq<Op>)
    requires ValidStream(stream) && Fresh(c, l)
    ensures var s := Run(c, stream, Start(l), ops);
            && s.acked <= |stream|
            && (forall i | 0 <= i < s.acked :: stream[i].sequence in s.t.deliveries)
            && (forall q | q in s.t.deliveries :: Sent(stream, q, s.t.deliveries[q]))
  {
    var s := Run(c, stream, Start(l), ops);
    var n, k := Explanation(c, l, stream, ops);
    forall i | 0 <= i < s.acked ensures stream[i].sequence in s.t.deliveries {
      assert RowMatches(c, l, stream, s.t, k, i);
    }
    forall q | q in s.t.deliveries ensures Sent(stream, q, s.t.deliveries[q]) {
      var i :| 0 <= i < n && stream[i].sequence == q;
      assert RowMatches(c, l, stream, s.t, k, i);
      assert stream[i] == Message(q, s.t.deliveries[q].subject, s.t.deliveries[q].payload);
    }
  }

  lemma Explanation(c: Client, l: Local, stream: seq<Message>, ops: seq<Op>) returns (n: nat, k: nat)
    requires ValidStream(stream) && Fresh(c, l)
    ensures var s := Run(c, stream, Start(l), ops); s.acked <= n && Explains(c, l, stream, s.t, n, k)
  {
    StartExplained(c, l, stream);
    RunExplained(c, l, stream, Start(l), ops);
    var s := Run(c, stream, Start(l), ops);
    n, k :| s.acked <= n && Explains(c, l, stream, s.t, n, k);
  }

  /** With nothing of the group pending, all that was staged has been folded. */
  lemma DrainedIsFolded(c: Client, l: Local, stream: seq<Message>, t: Tables, n: nat, k: nat)
    requires ValidStream(stream) && Explains(c, l, stream, t, n, k) && PendingRows(c, t) == {}
    ensures Explains(c, l, stream, t, n, n)
  {
    NoneLeft(c, l, stream, t, n, k);
    FoldSkips(c, l, stream, k, n);
    forall j | 0 <= j < n ensures RowMatches(c, l, stream, t, n, j) {
      assert RowMatches(c, l, stream, t, k, j);
    }
  }

  /**
   * The interleaving leaves no trace: whenever nothing of the group is pending, the group state,
   * the dedup table and the transcript are the fold of the staged prefix of the stream.
   */
  lemma HistoryIsAPureFold(c: Client, l: Local, stream: seq<Message>, ops: seq<Op>)
    requires ValidStream(stream) && Fresh(c, l) && PendingRows(c, Run(c, stream, Start(l), ops).t) == {}
    ensures var s := Run(c, stream, Start(l), ops);
            |s.t.deliveries| <= |stream| && s.t.local == Fold(c, l, stream[..|s.t.deliveries|])
  {
    var s := Run(c, stream, Start(l), ops);
    var n, k := Explanation(c, l, stream, ops);
    DrainedIsFolded(c, l, stream, s.t, n, k);
    StagedCount(c, l, stream, s.t, n, k);
  }

  /** Two runs that have drained the same number of messages agree on every table. */
  lemma InterleavingsAgree(c: Client, l: Local, stream: seq<Message>, ops: seq<Op>, others: seq<Op>)
    requires ValidStream(stream) && Fresh(c, l)
    requires var a, b := Run(c, stream, Start(l), ops).t, Run(c, stream, Start(l), others).t;
             PendingRows(c, a) == {} && PendingRows(c, b) == {} && |a.deliveries| == |b.deliveries|
    ensures Run(c, stream, Start(l), ops).t == Run(c, stream, Start(l), others).t
  {
    var a, b := Run(c, stream, Start(l), ops).t, Run(c, stream, Start(l), others).t;
    var n, k := Explanation(c, l, stream, ops);
    var m, j := Explanation(c, l, stream, others);
    DrainedIsFolded(c, l, stream, a, n, k);
    DrainedIsFolded(c, l, stream, b, m, j);
    StagedCount(c, l, stream, a, n, k);
    StagedCount(c, l, stream, b, m, j);
    SameTables(c, l, stream, a, b, n);
  }

  lemma SameTables(c: Client, l: Local, stream: seq<Message>, a: Tables, b: Tables, n: nat)
    requires Explains(c, l, stream, a, n, n) && Explains(c, l, stream, b, n, n)
    ensures a == b
  {
    forall q | q in a.deliveries ensures q in b.deliveries && a.deliveries[q] == b.deliveries[q] {
      var i :| 0 <= i < n && stream[i].sequence == q;
      assert RowMatches(c, l, stream, a, n, i) && RowMatches(c, l, stream, b, n, i);
    }
    forall q | q in b.deliveries ensures q in a.deliveries {
      var i :| 0 <= i < n && stream[i].sequence == q;
      assert RowMatches(c, l, stream, a, n, i);
    }
    assert a.deliveries == b.deliveries;
  }

  lemma StagedCount(c: Client, l: Local, stream: seq<Message>, t: Tables, n: nat, k: nat)
    requires ValidStream(stream) && Explains(c, l, stream, t, n, k)
    ensures |t.deliveries| == n
  {
    SequencesCount(stream[..n]);
    assert t.deliveries.Keys == Sequences(stream[..n]) by {
      forall q ensures q in t.deliveries.Keys <==> q in Sequences(stream[..n]) {
        if q in t.deliveries {
          var i :| 0 <= i < n && stream[i].sequence == q;
          assert stream[..n][i].sequence == q;
        }
        if q in Sequences(stream[..n]) {
          var m :| m in stream[..n] && m.sequence == q;
          var i :| 0 <= i < n && stream[..n][i] == m;
          assert RowMatches(c, l, stream, t, k, i);
        }
      }
    }
    assert |t.deliveries| == |t.deliveries.Keys|;
  }

  function Sequences(stream: seq<Message>): set<nat> {
    set m | m in stream :: m.sequence
  }

  lemma {:induction false} SequencesCount(stream: seq<Message>)
    requires ValidStream(stream)
    ensures |Sequences(stream)| == |stream|
    decreases |stream|
  {
    if stream != [] {
      var rest, last := stream[..|stream| - 1], stream[|stream| - 1];
      SequencesCount(rest);
      assert stream == rest + [last];
      assert Sequences(stream) == Sequences(rest) + {last.sequence};
      assert last.sequence !in Sequences(rest);
    }
  }

  // ---- Blocked histories ----

  /**
   * A message MLS fails on blocks the group for good: in every later state it and every later
   * message of the group that was staged are pending, and no pass that finds it staged succeeds.
   */
  lemma BlockedForEver(c: Client, l: Local, stream: seq<Message>, ops: seq<Op>, i: nat)
    requires ValidStream(stream) && Fresh(c, l) && i < |stream| && BlockedAt(c, l, stream, i)
    ensures var t := Run(c, stream, Start(l), ops).t;
            && (forall j | i <= j < |stream| && InGroup(c, stream[j].subject) && stream[j].sequence in t.deliveries ::
                  t.deliveries[stream[j].sequence].state == Pending)
            && forall r, storage | stream[i].sequence in t.deliveries :: !ProcessAll(c, t, r, storage).2
  {
    var t := Run(c, stream, Start(l), ops).t;
    var n, k := Explanation(c, l, stream, ops);
    forall j | i <= j < |stream| && stream[j].sequence in t.deliveries ensures j < n
        && RowMatches(c, l, stream, t, k, j) {
      var j' :| 0 <= j' < n && stream[j'].sequence == stream[j].sequence;
      assert j' == j;
    }
    forall r, storage | stream[i].sequence in t.deliveries ensures !ProcessAll(c, t, r, storage).2 {
      var _ := ProcessExplains(c, l, stream, t, r, storage, n, k);
      assert !Passable(c, l, stream, storage, i);
    }
  }

  /** MLS refuses to process anything for a group this device was removed from. */
  ghost predicate RefusesAfterEviction(c: Client) {
    forall g, payload, sequence :: !c.active(g) ==> c.commit(g, payload, sequence).Failed?
  }

  /** `process_handshake` does not look whether the group is active, so after an eviction any unknown commit blocks. */
  lemma EvictedIsBlocked(c: Client, l: Local, stream: seq<Message>, i: nat)
    requires RefusesAfterEviction(c) && i < |stream| && !c.active(Fold(c, l, stream[..i]).group)
    requires stream[i].subject == c.handshake && BeforeJoin(c, stream[i].payload) == Some(false)
    requires HasContent(c, stream[i].payload, Commit) && !KnownPayload(c, Fold(c, l, stream[..i]), stream[i].payload)
    ensures BlockedAt(c, l, stream, i)
  {}

  /** A device of a group whose removal is the payload 1; every group state but the empty one is active. */
  function Evicted(): Client {
    Client("m", "h", [], 0, {},
           (payload: Bytes) => Some(Header([], 0, Commit)),
           (g: GroupState) => g != [],
           (g: GroupState, payload: Bytes) => Invalid,
           (g: GroupState, payload: Bytes, sequence: nat) =>
             if g == [] then Failed else if payload == [1] then Accepted([]) else Accepted(g))
  }

  lemma {:induction false} AcknowledgmentsStay(c: Client, stream: seq<Message>, s: System, ops: seq<Op>)
    ensures s.acked <= Run(c, stream, s, ops).acked
    decreases |ops|
  {
    if ops != [] {
      AcknowledgmentsStay(c, stream, Next(c, stream, s, ops[0]), ops[1..]);
    }
  }

  /** The removal of this device and a later commit are fetched; the later one stays pending whatever is done. */
  lemma EvictionCounterexample(more: seq<Op>)
    ensures var c, l, stream := Evicted(), Local([0], {}, map[]), [Message(1, "h", [1]), Message(2, "h", [2])];
            && ValidStream(stream) && Fresh(c, l) && RefusesAfterEviction(c)
            && var t := Run(c, stream, Start(l), [Fetch(0, true, true), Fetch(1, true, true)] + more).t;
               && 2 in t.deliveries && t.deliveries[2].state == Pending
               && !ProcessAll(c, t, Report(0, 0, 0), _ => true).2
  {
    var c, l, stream := Evicted(), Local([0], {}, map[]), [Message(1, "h", [1]), Message(2, "h", [2])];
    var ops := [Fetch(0, true, true), Fetch(1, true, true)] + more;
    hide BlockedAt, ProcessAll, VerdictAt;
    EvictionBlocks();
    BlockedForEver(c, l, stream, ops, 1);
    var s1 := Next(c, stream, Start(l), ops[0]);
    var s2 := Next(c, stream, s1, ops[1]);
    assert ops[1..][1..] == more && Run(c, stream, Start(l), ops) == Run(c, stream, s2, more);
    AcknowledgmentsStay(c, stream, s2, more);
    AcknowledgedIsStaged(c, l, stream, ops);
    assert stream[1].sequence == 2;
  }

  lemma EvictionBlocks()
    ensures var c, l, stream := Evicted(), Local([0], {}, map[]), [Message(1, "h", [1]), Message(2, "h", [2])];
            !BlockedAt(c, l, stream, 0) && BlockedAt(c, l, stream, 1)
  {
    var c, l, stream := Evicted(), Local([0], {}, map[]), [Message(1, "h", [1]), Message(2, "h", [2])];
    var removal := stream[0];
    assert stream[..0] == [] && stream[..1] == [removal] && [removal][..0] == [];
    assert Fold(c, l, []) == l;
    assert Fold(c, l, [removal]) == Step(c, l, removal) == Local([], {[1]}, map[]);
    EvictedIsBlocked(c, l, stream, 1);
  }

  // ---- Every payload once ----

  predicate OpensAt(c: Client, l: Local, stream: seq<Message>, i: nat)
    requires i < |stream|
  {
    InGroup(c, stream[i].subject) && VerdictAt(c, Fold(c, l, stream[..i]), stream[i]).Open?
  }

  /** Accepted as a message: decrypted here, or recognised as decrypted before or sent by this device. */
  predicate AcceptedAt(c: Client, l: Local, stream: seq<Message>, i: nat)
    requires i < |stream|
  {
    InGroup(c, stream[i].subject)
    && var v := VerdictAt(c, Fold(c, l, stream[..i]), stream[i]); v.Open? || v.Known?
  }

  lemma {:induction false} KnownStays(c: Client, l: Local, stream: seq<Message>, i: nat, j: nat, p: Bytes)
    requires i <= j <= |stream|
    requires KnownPayload(c, Fold(c, l, stream[..i]), p)
    ensures KnownPayload(c, Fold(c, l, stream[..j]), p)
    decreases j
  {
    if i < j {
      KnownStays(c, l, stream, i, j - 1, p);
      assert stream[..j][..j - 1] == stream[..j - 1];
    }
  }

  /** No payload is decrypted twice. */
  lemma DecryptedOnce(c: Client, l: Local, stream: seq<Message>, i: nat, j: nat)
    requires i < j < |stream| && OpensAt(c, l, stream, i) && stream[i].payload == stream[j].payload
    ensures !OpensAt(c, l, stream, j)
  {
    assert stream[..i + 1][..i] == stream[..i];
    assert stream[i].payload in Fold(c, l, stream[..i + 1]).received;
    KnownStays(c, l, stream, i + 1, j, stream[i].payload);
  }

  /** And every accepted message that is not this device's own was decrypted, here or at an earlier copy. */
  lemma AcceptedWasDecrypted(c: Client, l: Local, stream: seq<Message>, j: nat)
    requires j < |stream| && Fresh(c, l) && AcceptedAt(c, l, stream, j)
    requires stream[j].payload !in c.own && stream[j].payload !in l.received
    ensures exists i :: 0 <= i <= j && OpensAt(c, l, stream, i) && stream[i].payload == stream[j].payload
  {
    if !OpensAt(c, l, stream, j) {
      var i := ReceivedAt(c, l, stream, j, stream[j].payload);
      assert HasContent(c, stream[j].payload, Application);
      assert OpensAt(c, l, stream, i);
    }
  }

  /** The row that put a payload into the dedup table. */
  lemma {:induction false} ReceivedAt(c: Client, l: Local, stream: seq<Message>, n: nat, p: Bytes) returns (i: nat)
    requires n <= |stream| && p in Fold(c, l, stream[..n]).received && p !in l.received
    ensures i < n && stream[i].payload == p && InGroup(c, stream[i].subject)
    ensures OpensAt(c, l, stream, i) || HasContent(c, p, Commit)
    decreases n
  {
    assert stream[..0] == [];
    assert stream[..n][..n - 1] == stream[..n - 1];
    if p in Fold(c, l, stream[..n - 1]).received {
      i := ReceivedAt(c, l, stream, n - 1, p);
    } else {
      i := n - 1;
    }
  }

  /** An accepted message is in the transcript with its plaintext, at the sequence of its first accepted copy. */
  lemma {:induction false} AcceptedIsShown(c: Client, l: Local, stream: seq<Message>, i: nat, n: nat)
    requires ValidStream(stream) && Fresh(c, l) && i < n <= |stream| && AcceptedAt(c, l, stream, i)
    requires forall j | 0 <= j < i :: !(AcceptedAt(c, l, stream, j) && stream[j].payload == stream[i].payload)
    ensures var t := Fold(c, l, stream[..n]).transcript; var p := stream[i].payload;
            p in t && t[p].plaintext.Some? && t[p].sequence == Some(stream[i].sequence)
    decreases n
  {
    var p, m := stream[i].payload, stream[n - 1];
    FoldKept(c, l, stream[..n]);
    FoldKept(c, l, stream[..n - 1]);
    assert stream[..n][..n - 1] == stream[..n - 1];
    var l', v := Fold(c, l, stream[..n - 1]), VerdictAt(c, Fold(c, l, stream[..n - 1]), m);
    if n == i + 1 {
      NotYetShown(c, l, stream, i, p);
    } else {
      AcceptedIsShown(c, l, stream, i, n - 1);
    }
  }

  /** Before its first accepted copy a payload has no sequence. */
  lemma {:induction false} NotYetShown(c: Client, l: Local, stream: seq<Message>, n: nat, p: Bytes)
    requires Fresh(c, l) && n <= |stream|
    requires forall j | 0 <= j < n :: !(AcceptedAt(c, l, stream, j) && stream[j].payload == p)
    ensures var t := Fold(c, l, stream[..n]).transcript; p in t ==> t[p].sequence.None?
    decreases n
  {
    assert stream[..0] == [];
    if n > 0 {
      NotYetShown(c, l, stream, n - 1, p);
      assert stream[..n][..n - 1] == stream[..n - 1];
      assert !(AcceptedAt(c, l, stream, n - 1) && stream[n - 1].payload == p);
    }
  }

  /** The framing of a payload this client may accept: its group, and an epoch it was a member in. */
  predicate OwnEpoch(c: Client, p: Bytes) {
    |p| <= MAX_WIRE && c.parse(p).Some? && c.parse(p).value.group == c.mlsId && c.parse(p).value.epoch >= c.joinEpoch
  }

  /**
   * Nothing from before the join, from another group or beyond the size limit ever reaches the group,
   * the dedup table or the transcript.
   */
  lemma {:induction false} OnlyOwnEpochsCount(c: Client, l: Local, stream: seq<Message>, p: Bytes)
    ensures var after := Fold(c, l, stream);
            && (p in after.received && p !in l.received ==> OwnEpoch(c, p))
            && (p in after.transcript && p !in l.transcript ==>
                 OwnEpoch(c, p)
                 && c.parse(p).value.content == Application)
    decreases |stream|
  {
    if stream != [] {
      OnlyOwnEpochsCount(c, l, stream[..|stream| - 1], p);
    }
  }

  // ---- Rejected messages ----

  predicate RejectedAfter(c: Client, l: Local, m: Message) {
    InGroup(c, m.subject) && VerdictAt(c, l, m).Reject?
  }

  /** The stream without what is rejected. */
  function Cleaned(c: Client, l: Local, stream: seq<Message>): seq<Message>
    decreases |stream|
  {
    if stream == [] then []
    else
      var rest, last := stream[..|stream| - 1], stream[|stream| - 1];
      Cleaned(c, l, rest) + if RejectedAfter(c, Fold(c, l, rest), last) then [] else [last]
  }

  /**
   * Rejected messages leave no trace: had they never been sent, the group, the dedup table and the
   * transcript would be the same, and nothing would be rejected.
   */
  lemma {:induction false} RejectionsDoNotMatter(c: Client, l: Local, stream: seq<Message>)
    ensures var clean := Cleaned(c, l, stream);
            && Fold(c, l, clean) == Fold(c, l, stream)
            && forall i | 0 <= i < |clean| :: !RejectedAfter(c, Fold(c, l, clean[..i]), clean[i])
    decreases |stream|
  {
    if stream != [] {
      var rest, last := stream[..|stream| - 1], stream[|stream| - 1];
      RejectionsDoNotMatter(c, l, rest);
      var before := Cleaned(c, l, rest);
      if RejectedAfter(c, Fold(c, l, rest), last) {
        assert Cleaned(c, l, stream) == before;
      } else {
        CleanGrows(c, l, before, last);
      }
    }
  }

  lemma CleanGrows(c: Client, l: Local, clean: seq<Message>, m: Message)
    requires forall i | 0 <= i < |clean| :: !RejectedAfter(c, Fold(c, l, clean[..i]), clean[i])
    requires !RejectedAfter(c, Fold(c, l, clean), m)
    ensures Fold(c, l, clean + [m]) == Step(c, Fold(c, l, clean), m)
    ensures forall i | 0 <= i < |clean + [m]| :: !RejectedAfter(c, Fold(c, l, (clean + [m])[..i]), (clean + [m])[i])
  {
    hide RejectedAfter, Step;
    assert (clean + [m])[..|clean|] == clean;
    forall i | 0 <= i < |clean + [m]| ensures !RejectedAfter(c, Fold(c, l, (clean + [m])[..i]), (clean + [m])[i]) {
      if i < |clean| {
        assert (clean + [m])[..i] == clean[..i];
      }
    }
  }
}
