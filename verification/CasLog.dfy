/**
 * The compare-and-swap append loops of crates/epochgrid-core/src/transparency.rs and revocation.rs,
 * run by any number of writers against one key-value cell. An update may fail, and may also take
 * effect while the writer is told that it failed.
 */
module CasLog {
  import opened Prelude
  import opened Wire
  import opened Transparency
  import opened RevocationLogs

  const ATTEMPTS: nat := 4

  datatype Decision = Refuse | Present | Push(bytes: Bytes)

  /** How a writer reads the stored bytes and what it makes of a request Q for a log of T. */
  datatype Policy<!Q, !T> = Policy(
    read: Bytes -> Option<seq<T>>,
    decide: (Bytes, Q) -> Decision,
    entry: Q -> T,
    key: T -> string,
    exact: bool)
  {
    predicate Distinct(entries: seq<T>) {
      forall i, j | 0 <= i < j < |entries| :: key(entries[i]) != key(entries[j])
    }

    /** Is the request answered by the log: by the very entry, or at least by one with its key? */
    ghost predicate Recorded(q: Q, entries: seq<T>) {
      exists i | 0 <= i < |entries| :: if exact then entries[i] == entry(q) else key(entries[i]) == key(entry(q))
    }

    /** One decision is right for the bytes it was made on. */
    ghost predicate Right(bytes: Bytes, q: Q) {
      match decide(bytes, q)
      case Refuse => true
      case Present => read(bytes).Some? && Recorded(q, read(bytes).value)
      case Push(next) =>
        && read(bytes).Some?
        && read(next) == Some(read(bytes).value + [entry(q)])
        && forall i | 0 <= i < |read(bytes).value| :: key(read(bytes).value[i]) != key(entry(q))
    }
  }

  ghost predicate Sound<Q(!new), T>(policy: Policy<Q, T>) {
    forall bytes: Bytes, q: Q :: policy.Right(bytes, q)
  }

  datatype Cell = Cell(bytes: Bytes, revision: nat)

  datatype Writer<Q> = Reading(q: Q, attempt: nat) | Updating(q: Q, held: Cell, attempt: nat)

  /** The cell, the writers inside `append`, and every request that was answered with Ok. */
  datatype System<Q> = System(cell: Cell, writers: map<nat, Writer<Q>>, acked: seq<Q>)

  datatype Step<Q> =
    | Begin(w: nat, q: Q)
    | Read(w: nat)
    | Update(w: nat, commits: bool, reported: bool)
    | Abort(w: nat)

  /** One step of one writer; a step that is not enabled changes nothing. */
  function Next<Q, T>(policy: Policy<Q, T>, s: System<Q>, step: Step<Q>): System<Q> {
    var w := step.w;
    match step
    case Begin(_, q) => if w in s.writers then s else s.(writers := s.writers[w := Reading(q, 0)])
    case Abort(_) => s.(writers := s.writers - {w})
    case Read(_) =>
      if w in s.writers && s.writers[w].Reading? then
        s.(writers := s.writers[w := Updating(s.writers[w].q, s.cell, s.writers[w].attempt)])
      else s
    case Update(_, commits, reported) =>
      if w !in s.writers || s.writers[w].Reading? then s
      else
        var Updating(q, held, attempt) := s.writers[w];
        match policy.decide(held.bytes, q)
        case Refuse => s.(writers := s.writers - {w})
        case Present => s.(writers := s.writers - {w}, acked := s.acked + [q])
        case Push(bytes) =>
          var took := commits && held.revision == s.cell.revision;
          var cell := if took then Cell(bytes, s.cell.revision + 1) else s.cell;
          if took && reported then System(cell, s.writers - {w}, s.acked + [q])
          else if attempt + 1 < ATTEMPTS then System(cell, s.writers[w := Reading(q, attempt + 1)], s.acked)
          else System(cell, s.writers - {w}, s.acked)
  }

  function Run<Q, T>(policy: Policy<Q, T>, s: System<Q>, steps: seq<Step<Q>>): System<Q>
    decreases |steps|
  {
    if steps == [] then s else Run(policy, Next(policy, s, steps[0]), steps[1..])
  }

  function Entries<Q, T>(policy: Policy<Q, T>, s: System<Q>): seq<T> {
    match policy.read(s.cell.bytes)
    case None => []
    case Some(entries) => entries
  }

  /** A writer holds a value the cell had at the revision it remembers. */
  predicate FreshEnough<Q>(s: System<Q>, w: Writer<Q>) {
    w.Updating? ==> w.held.revision <= s.cell.revision && (w.held.revision == s.cell.revision ==> w.held == s.cell)
  }

  ghost predicate Inv<Q, T>(policy: Policy<Q, T>, s: System<Q>) {
    && policy.read(s.cell.bytes).Some?
    && policy.Distinct(Entries(policy, s))
    && (forall w | w in s.writers :: FreshEnough(s, s.writers[w]))
    && (forall w | w in s.writers && s.writers[w].Updating? ::
          policy.read(s.writers[w].held.bytes).Some? && policy.read(s.writers[w].held.bytes).value
            <= Entries(policy, s))
    && (forall i | 0 <= i < |s.acked| :: policy.Recorded(s.acked[i], Entries(policy, s)))
  }

  lemma RecordedStays<Q, T>(policy: Policy<Q, T>, q: Q, entries: seq<T>, more: seq<T>)
    requires policy.Recorded(q, entries) && entries <= more
    ensures policy.Recorded(q, more)
  {
    var i :| 0 <= i < |entries| && (if policy.exact then entries[i] == policy.entry(q)
                                    else policy.key(entries[i]) == policy.key(policy.entry(q)));
    assert more[i] == entries[i];
  }

  /** What one step does to the log: nothing, or one entry with a new key at the end. */
  ghost predicate Grows<Q(!new), T>(policy: Policy<Q, T>, s: System<Q>, s': System<Q>) {
    || (s'.cell == s.cell)
    || exists q: Q ::
         && Entries(policy, s') == Entries(policy, s) + [policy.entry(q)]
         && (forall i | 0 <= i < |Entries(policy, s)| ::
            policy.key(Entries(policy, s)[i]) != policy.key(policy.entry(q)))
         && s'.cell.revision == s.cell.revision + 1
  }

  lemma StepAppendsOne<Q(!new), T>(policy: Policy<Q, T>, s: System<Q>, step: Step<Q>)
    requires Sound(policy) && Inv(policy, s)
    ensures Grows(policy, s, Next(policy, s, step))
    ensures Entries(policy, s) <= Entries(policy, Next(policy, s, step))
  {
    if step.Update? && step.w in s.writers && s.writers[step.w].Updating? {
      var Updating(q, held, _) := s.writers[step.w];
      assert policy.Right(held.bytes, q) && FreshEnough(s, s.writers[step.w]);
    }
  }

  lemma StepKeepsInv<Q(!new), T>(policy: Policy<Q, T>, s: System<Q>, step: Step<Q>)
    requires Sound(policy) && Inv(policy, s)
    ensures Inv(policy, Next(policy, s, step))
    ensures s.acked <= Next(policy, s, step).acked
  {
    var s' := Next(policy, s, step);
    StepAppendsOne(policy, s, step);
    var before, after := Entries(policy, s), Entries(policy, s');
    forall i | 0 <= i < |s.acked| ensures policy.Recorded(s.acked[i], after) {
      RecordedStays(policy, s.acked[i], before, after);
    }
    if step.Update? && step.w in s.writers && s.writers[step.w].Updating? {
      var Updating(q, held, _) := s.writers[step.w];
      assert policy.Right(held.bytes, q) && FreshEnough(s, s.writers[step.w]);
      if s'.acked != s.acked {
        if s'.cell == s.cell {
          RecordedStays(policy, q, policy.read(held.bytes).value, after);
        } else {
          assert after[|before|] == policy.entry(q);
        }
      }
    }
  }

  /**
   * Safety of the append loop: the log only grows, each key enters at most once, and whatever was
   * answered with Ok is in the log from then on.
   */
  lemma {:induction false} RunIsSafe<Q(!new), T>(policy: Policy<Q, T>, s: System<Q>, steps: seq<Step<Q>>)
    requires Sound(policy) && Inv(policy, s)
    ensures Inv(policy, Run(policy, s, steps))
    ensures Entries(policy, s) <= Entries(policy, Run(policy, s, steps))
    ensures s.acked <= Run(policy, s, steps).acked
    decreases |steps|
  {
    if steps != [] {
      StepKeepsInv(policy, s, steps[0]);
      StepAppendsOne(policy, s, steps[0]);
      RunIsSafe(policy, Next(policy, s, steps[0]), steps[1..]);
    }
  }

  // ---- The registration log ----

  function FindEndpoint(entries: seq<Registration>, endpoint: string): Option<Registration> {
    if entries == [] then None
    else if EndpointOf(entries[0]) == endpoint then Some(entries[0])
    else FindEndpoint(entries[1..], endpoint)
  }

  function ReadSnapshot(p: Primitives, bytes: Bytes): Option<Snapshot> {
    match Decode(p.snapshots, bytes)
    case None => None
    case Some(s) => if ValidSnapshot(p, s) then Some(s) else None
  }

  function DecideRegistration(p: Primitives, key: SigningKey, bytes: Bytes, r: Registration): Decision {
    match ReadSnapshot(p, bytes)
    case None => Refuse
    case Some(s) =>
      if s.checkpoint.signer != key.public then Refuse
      else
        match FindEndpoint(s.entries, EndpointOf(r))
        case Some(existing) => if existing == r then Present else Refuse
        case None =>
          match Signed(p, key, s.entries + [r])
          case None => Refuse
          case Some(next) =>
            match Encode(p.snapshots, next)
            case None => Refuse
            case Some(encoded) => Push(encoded)
  }

  function RegistrationPolicy(p: Primitives, key: SigningKey): Policy<Registration, Registration> {
    Policy(
      bytes => (match ReadSnapshot(p, bytes) case None => None case Some(s) => Some(s.entries)),
      (bytes, r) => DecideRegistration(p, key, bytes, r),
      r => r,
      EndpointOf,
      true)
  }

  lemma {:induction false} FindEndpointFinds(entries: seq<Registration>, endpoint: string)
    ensures match FindEndpoint(entries, endpoint)
            case None => forall i | 0 <= i < |entries| :: EndpointOf(entries[i]) != endpoint
            case Some(r) => exists i :: 0 <= i < |entries| && entries[i] == r && EndpointOf(r) == endpoint
  {
    if entries != [] && EndpointOf(entries[0]) != endpoint {
      FindEndpointFinds(entries[1..], endpoint);
    }
  }

  lemma RegistrationPolicyIsSound(p: Primitives, key: SigningKey)
    requires p.Sane()
    ensures Sound(RegistrationPolicy(p, key))
  {
    var policy := RegistrationPolicy(p, key);
    forall bytes: Bytes, r: Registration ensures policy.Right(bytes, r) {
      var read := ReadSnapshot(p, bytes);
      if read.Some? {
        var entries := read.value.entries;
        FindEndpointFinds(entries, EndpointOf(r));
        var next := Signed(p, key, entries + [r]);
        if next.Some? {
          assert p.snapshots.decode(p.snapshots.encode(next.value)) == Some(next.value);
        }
      }
    }
  }

  /**
   * Whatever the interleaving, two registrations for one endpoint are never both accepted, and an
   * accepted registration stays in the log in every later state.
   */
  lemma AcceptedRegistrationsAgree(p: Primitives, key: SigningKey, s: System<Registration>,
                                   steps: seq<Step<Registration>>, more: seq<Step<Registration>>,
                                   x: Registration, y: Registration)
    requires p.Sane() && Inv(RegistrationPolicy(p, key), s)
    requires x in Run(RegistrationPolicy(p, key), s, steps).acked
             && y in Run(RegistrationPolicy(p, key), s, steps + more).acked
    ensures x in Entries(RegistrationPolicy(p, key), Run(RegistrationPolicy(p, key), s, steps + more))
    ensures EndpointOf(x) == EndpointOf(y) || x.payload.natsKey == y.payload.natsKey ==> x == y
  {
    var policy := RegistrationPolicy(p, key);
    RegistrationPolicyIsSound(p, key);
    var mid := Run(policy, s, steps);
    RunIsSafe(policy, s, steps);
    RunIsSafe(policy, mid, more);
    RunSplits(policy, s, steps, more);
    var end := Run(policy, mid, more);
    var i :| 0 <= i < |mid.acked| && mid.acked[i] == x;
    var j :| 0 <= j < |end.acked| && end.acked[j] == y;
    assert policy.Recorded(end.acked[i], Entries(policy, end)) && policy.Recorded(end.acked[j], Entries(policy, end));
    SameIdentity(p, ReadSnapshot(p, end.cell.bytes).value, x, y);
  }

  lemma {:induction false} RunSplits<Q, T>(policy: Policy<Q, T>, s: System<Q>, steps: seq<Step<Q>>, more: seq<Step<Q>>)
    ensures Run(policy, s, steps + more) == Run(policy, Run(policy, s, steps), more)
    decreases |steps|
  {
    if steps == [] {
      assert steps + more == more;
    } else {
      assert (steps + more)[1..] == steps[1..] + more;
      RunSplits(policy, Next(policy, s, steps[0]), steps[1..], more);
    }
  }

  // ---- The revocation log ----

  /** A call of `revocation::append`: the request, the snapshot it is checked against and the cutoff. */
  datatype RevokeCall = RevokeCall(request: RevokeRequest, registrations: Snapshot, cutoff: nat)

  function DecideRevocation(p: Primitives, key: SigningKey, bytes: Bytes, q: RevokeCall): Decision {
    match Decode(p.logs, bytes)
    case None => Refuse
    case Some(log) =>
      if !ValidLog(p, log, q.registrations) || !ValidRequest(p, q.request, q.registrations, log.entries) then Refuse
      else if Revokes(log.entries, q.request.nkey) then Present
      else
        match SignedLog(p, key, log.entries + [Revocation(q.request, q.cutoff)])
        case None => Refuse
        case Some(next) =>
          match Encode(p.logs, next)
          case None => Refuse
          case Some(encoded) => if ValidLog(p, next, q.registrations) then Push(encoded) else Refuse
  }

  function RevocationPolicy(p: Primitives, key: SigningKey): Policy<RevokeCall, Revocation> {
    Policy(
      bytes => (match Decode(p.logs, bytes) case None => None case Some(log) => Some(log.entries)),
      (bytes, q) => DecideRevocation(p, key, bytes, q),
      (q: RevokeCall) => Revocation(q.request, q.cutoff),
      (r: Revocation) => r.request.nkey,
      false)
  }

  lemma RevocationPolicyIsSound(p: Primitives, key: SigningKey)
    requires p.Sane()
    ensures Sound(RevocationPolicy(p, key))
  {
    var policy := RevocationPolicy(p, key);
    forall bytes: Bytes, q: RevokeCall ensures policy.Right(bytes, q) {
      var read := Decode(p.logs, bytes);
      if read.Some? {
        var next := SignedLog(p, key, read.value.entries + [Revocation(q.request, q.cutoff)]);
        if next.Some? {
          assert p.logs.decode(p.logs.encode(next.value)) == Some(next.value);
        }
      }
    }
  }

  /** No entry was authored by a key that an earlier entry revokes. */
  ghost predicate AuthorsActive(entries: seq<Revocation>) {
    forall i, j | 0 <= i < j < |entries| :: entries[i].request.nkey != entries[j].request.author
  }

  lemma ValidLogAuthorsActive(p: Primitives, log: RevocationLog, registrations: Snapshot)
    requires ValidLog(p, log, registrations)
    ensures AuthorsActive(log.entries)
  {
    forall i, j | 0 <= i < j < |log.entries| ensures log.entries[i].request.nkey != log.entries[j].request.author {
      assert ValidEntry(p, log.entries, j, registrations) && log.entries[..j][i] == log.entries[i];
    }
  }

  lemma StepAuthorsActive(p: Primitives, key: SigningKey, s: System<RevokeCall>, step: Step<RevokeCall>)
    requires p.Sane() && AuthorsActive(Entries(RevocationPolicy(p, key), s))
    ensures AuthorsActive(Entries(RevocationPolicy(p, key), Next(RevocationPolicy(p, key), s, step)))
  {
    if step.Update? && step.w in s.writers && s.writers[step.w].Updating? {
      var Updating(q, held, _) := s.writers[step.w];
      var decision := DecideRevocation(p, key, held.bytes, q);
      if decision.Push? {
        var stored := Decode(p.logs, held.bytes).value.entries;
        var next := SignedLog(p, key, stored + [Revocation(q.request, q.cutoff)]).value;
        assert p.logs.decode(p.logs.encode(next)) == Some(next);
        ValidLogAuthorsActive(p, next, q.registrations);
      }
    }
  }

  /** However writers interleave, a revoked device never authors a later revocation. */
  lemma {:induction false} RevokedKeysNeverAuthor(p: Primitives, key: SigningKey, s: System<RevokeCall>,
                                                  steps: seq<Step<RevokeCall>>)
    requires p.Sane() && AuthorsActive(Entries(RevocationPolicy(p, key), s))
    ensures AuthorsActive(Entries(RevocationPolicy(p, key), Run(RevocationPolicy(p, key), s, steps)))
    decreases |steps|
  {
    if steps != [] {
      StepAuthorsActive(p, key, s, steps[0]);
      RevokedKeysNeverAuthor(p, key, Next(RevocationPolicy(p, key), s, steps[0]), steps[1..]);
    }
  }

  /** A confirmed revocation has one entry, whose cutoff is the same in every later log. */
  lemma RevocationsAreFinal(p: Primitives, key: SigningKey, s: System<RevokeCall>, steps: seq<Step<RevokeCall>>,
                            more: seq<Step<RevokeCall>>, q: RevokeCall)
    requires p.Sane() && Inv(RevocationPolicy(p, key), s)
    requires q in Run(RevocationPolicy(p, key), s, steps).acked
    ensures var mid := Entries(RevocationPolicy(p, key), Run(RevocationPolicy(p, key), s, steps));
            var end := Entries(RevocationPolicy(p, key), Run(RevocationPolicy(p, key), s, steps + more));
            exists i | 0 <= i < |mid| && i < |end| ::
              && mid[i].request.nkey == q.request.nkey && end[i] == mid[i]
              && forall j | 0 <= j < |end| && end[j].request.nkey == q.request.nkey :: j == i
  {
    var policy := RevocationPolicy(p, key);
    RevocationPolicyIsSound(p, key);
    var mid := Run(policy, s, steps);
    RunIsSafe(policy, s, steps);
    RunIsSafe(policy, mid, more);
    RunSplits(policy, s, steps, more);
    var end := Entries(policy, Run(policy, mid, more));
    var a :| 0 <= a < |mid.acked| && mid.acked[a] == q;
    assert policy.Recorded(q, Entries(policy, mid));
    var i :| 0 <= i < |Entries(policy, mid)| && policy.key(Entries(policy, mid)[i]) == policy.key(policy.entry(q));
    assert end[i] == Entries(policy, mid)[i];
    forall j | 0 <= j < |end| && end[j].request.nkey == q.request.nkey ensures j == i {
      assert policy.key(end[j]) == policy.key(end[i]);
    }
  }
}
