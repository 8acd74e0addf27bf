/**
 * The freshness check and the replay cache of `Callout::respond_inner` in crates/epochgrid-core/
 * src/auth_callout.rs.
 */
module ReplayCache {
  import opened Prelude

  const LIMIT: nat := 4096

  /**
   * `connection` is the server and the connection key; `bound` stands for every check that does not involve
   * the clock.
   */
  datatype Request = Request(connection: string, expires: int, issued: int, notBefore: int, bound: bool)

  /** A request and the second in which it is handled. */
  datatype Step = Step(request: Request, now: int)

  predicate Fresh(s: Step) {
    && s.request.bound
    && s.now < s.request.expires <= s.now + 60
    && s.request.issued <= s.now + 2 && s.request.issued + 60 >= s.now
    && s.request.notBefore <= s.now
  }

  /** `retain`: entries that have expired are discarded. */
  function Retained(seen: map<string, int>, now: int): map<string, int> {
    map c | c in seen && seen[c] > now :: seen[c]
  }

  predicate Passes(seen: map<string, int>, s: Step) {
    Fresh(s) && s.request.connection !in Retained(seen, s.now) && |Retained(seen, s.now)| < LIMIT
  }

  /** A stale request leaves the cache alone; a fresh one prunes it even when it is refused. */
  function Check(seen: map<string, int>, s: Step): map<string, int> {
    if !Fresh(s) then seen
    else if Passes(seen, s) then Retained(seen, s.now)[s.request.connection := s.request.expires]
    else Retained(seen, s.now)
  }

  function SeenAfter(steps: seq<Step>): map<string, int> {
    if steps == [] then map[] else Check(SeenAfter(steps[..|steps| - 1]), steps[|steps| - 1])
  }

  predicate PassesAt(steps: seq<Step>, i: nat)
    requires i < |steps|
  {
    Passes(SeenAfter(steps[..i]), steps[i])
  }

  /** Since step `i` no fresh request was handled at or after the expiry of its request. */
  ghost predicate NotPassedBy(steps: seq<Step>, i: nat, n: nat)
    requires i < n <= |steps|
  {
    forall k | i < k < n :: Fresh(steps[k]) ==> steps[k].now < steps[i].request.expires
  }

  /** Step `i` is why the cache after `n` steps holds its connection. */
  ghost predicate Holds(steps: seq<Step>, i: nat, n: nat)
    requires i < n <= |steps|
  {
    PassesAt(steps, i) && NotPassedBy(steps, i, n)
  }

  /**
   * For any clock at all, an entry is there because of a passed request whose expiry no fresh request has
   * reached yet.
   */
  lemma {:induction false} EntryHasAReason(steps: seq<Step>, n: nat, c: string) returns (i: nat)
    requires n <= |steps| && c in SeenAfter(steps[..n])
    ensures i < n && Holds(steps, i, n) && steps[i].request.connection == c
            && steps[i].request.expires == SeenAfter(steps[..n])[c]
    decreases n
  {
    var s, before := steps[n - 1], SeenAfter(steps[..n - 1]);
    assert steps[..n][..n - 1] == steps[..n - 1];
    if Passes(before, s) && s.request.connection == c {
      i := n - 1;
    } else {
      i := EntryHasAReason(steps, n - 1, c);
    }
  }

  lemma {:induction false} ReasonHasAnEntry(steps: seq<Step>, i: nat, n: nat)
    requires i < n <= |steps| && Holds(steps, i, n)
    ensures var c := steps[i].request.connection;
           c in SeenAfter(steps[..n])
           && SeenAfter(steps[..n])[c] == steps[i].request.expires
    decreases n
  {
    assert steps[..n][..n - 1] == steps[..n - 1];
    if n > i + 1 {
      ReasonHasAnEntry(steps, i, n - 1);
    }
  }

  /**
   * The cache after `n` steps, for any clock: exactly the passed requests whose expiry no later fresh
   * request has reached.
   */
  lemma CacheIsExact(steps: seq<Step>, n: nat, c: string, expires: int)
    requires n <= |steps|
    ensures c in SeenAfter(steps[..n]) && SeenAfter(steps[..n])[c] == expires
            <==> exists i ::
                  0 <= i < n && Holds(steps, i, n) && steps[i].request.connection == c
                  && steps[i].request.expires == expires
  {
    if c in SeenAfter(steps[..n]) {
      var i := EntryHasAReason(steps, n, c);
    }
    if exists i :: 0 <= i < n && Holds(steps, i, n) && steps[i].request.connection == c
        && steps[i].request.expires == expires {
      var i :| 0 <= i < n && Holds(steps, i, n) && steps[i].request.connection == c
          && steps[i].request.expires == expires;
      ReasonHasAnEntry(steps, i, n);
    }
  }

  ghost predicate ClockRises(steps: seq<Step>) {
    forall i, j | 0 <= i <= j < |steps| :: steps[i].now <= steps[j].now
  }

  /** While the clock does not go back, one connection passes again only after its earlier request has expired. */
  lemma PassedRequestsExclude(steps: seq<Step>, i: nat, j: nat)
    requires ClockRises(steps) && i < j < |steps| && PassesAt(steps, i) && PassesAt(steps, j)
    requires steps[i].request.connection == steps[j].request.connection
    ensures steps[i].request.expires <= steps[j].now
  {
    if steps[j].now < steps[i].request.expires {
      assert NotPassedBy(steps, i, j);
      ReasonHasAnEntry(steps, i, j);
    }
  }

  /** So no request ever passes twice, although its entry is discarded when it expires. */
  lemma RequestPassesOnce(steps: seq<Step>, i: nat, j: nat)
    requires ClockRises(steps) && i < j < |steps| && steps[i].request == steps[j].request && PassesAt(steps, i)
    ensures !PassesAt(steps, j)
  {
    if PassesAt(steps, j) {
      PassedRequestsExclude(steps, i, j);
    }
  }

  /**
   * For an arbitrary clock a request that passed is let through again exactly when it is fresh
   * again after some fresh request was handled at or after its expiry, nothing else holds its
   * connection, and there is room.
   */
  lemma PassesAgainIff(steps: seq<Step>, i: nat, j: nat)
    requires i < j < |steps| && steps[i].request == steps[j].request && PassesAt(steps, i)
    ensures PassesAt(steps, j) <==>
            && Fresh(steps[j])
            && |Retained(SeenAfter(steps[..j]), steps[j].now)| < LIMIT
            && !NotPassedBy(steps, i, j)
            && forall k | i < k < j && steps[k].request.connection == steps[i].request.connection
               && Holds(steps, k, j) ::
                 steps[k].request.expires <= steps[j].now
  {
    var c, seen := steps[i].request.connection, SeenAfter(steps[..j]);
    if NotPassedBy(steps, i, j) {
      ReasonHasAnEntry(steps, i, j);
    } else if c in seen {
      var k := EntryHasAReason(steps, j, c);
      if k < i {
        PassOutlives(steps, k, i, j);
      }
    }
    if PassesAt(steps, j) {
      forall k | i < k < j && steps[k].request.connection == c && Holds(steps, k, j)
          ensures steps[k].request.expires <= steps[j].now {
        ReasonHasAnEntry(steps, k, j);
      }
    }
  }

  /** When a connection passes again, its earlier request is past its expiry. */
  lemma PassOutlives(steps: seq<Step>, k: nat, i: nat, j: nat)
    requires k < i < j <= |steps| && PassesAt(steps, k) && PassesAt(steps, i)
    requires steps[k].request.connection == steps[i].request.connection
    ensures !NotPassedBy(steps, k, j)
  {
    if NotPassedBy(steps, k, i) {
      ReasonHasAnEntry(steps, k, i);
      assert steps[i].now >= steps[k].request.expires;
    }
  }

  /** With a clock that goes back, a request can pass twice: here between a later second and the same second again. */
  lemma ClockBackCounterexample()
    ensures var a, b := Request("a", 50, 0, 0, true), Request("b", 110, 60, 60, true);
            var steps := [Step(a, 0), Step(b, 60), Step(a, 0)];
            PassesAt(steps, 0) && PassesAt(steps, 2)
  {
    var a, b := Request("a", 50, 0, 0, true), Request("b", 110, 60, 60, true);
    var steps := [Step(a, 0), Step(b, 60), Step(a, 0)];
    assert steps[..0] == [] && steps[..1] == [steps[0]] && steps[..2] == [steps[0], steps[1]];
    assert steps[..2][..1] == steps[..1] && steps[..1][..0] == [];
    assert SeenAfter([]) == map[] && Retained(map[], 0) == map[];
    assert SeenAfter(steps[..1]) == map["a" := 50];
    assert Retained(map["a" := 50], 60) == map[];
    assert SeenAfter(steps[..2]) == map["b" := 110];
    assert Retained(map["b" := 110], 0) == map["b" := 110];
  }

  lemma RetainedIsSmaller(seen: map<string, int>, now: int)
    ensures |Retained(seen, now)| <= |seen|
  {
    assert Retained(seen, now).Keys <= seen.Keys;
    SubsetSize(Retained(seen, now).Keys, seen.Keys);
    assert |Retained(seen, now)| == |Retained(seen, now).Keys| && |seen| == |seen.Keys|;
  }

  /** The cache never holds more than 4096 connections. */
  lemma {:induction false} CacheIsBounded(steps: seq<Step>)
    ensures |SeenAfter(steps)| <= LIMIT
    decreases |steps|
  {
    if steps != [] {
      CacheIsBounded(steps[..|steps| - 1]);
      RetainedIsSmaller(SeenAfter(steps[..|steps| - 1]), steps[|steps| - 1].now);
    }
  }

  class Callout {
    var seen: map<string, int>
    ghost var steps: seq<Step>

    ghost predicate Valid()
      reads this
    {
      seen == SeenAfter(steps)
    }

    constructor ()
      ensures Valid() && steps == []
    {
      seen, steps := map[], [];
    }

    method Admit(request: Request, now: int) returns (ok: bool)
      requires Valid()
      modifies this
      ensures Valid() && |seen| <= LIMIT
      ensures steps == old(steps) + [Step(request, now)]
      ensures ok <==> PassesAt(steps, |old(steps)|)
      ensures ok && ClockRises(steps) ==> forall i | 0 <= i < |old(steps)| && PassesAt(steps, i) ::
              steps[i].request != request
    {
      ghost var s, before := Step(request, now), steps;
      steps := steps + [s];
      assert steps[..|before|] == before && forall i | 0 <= i < |before| :: steps[..i] == before[..i];
      CacheIsBounded(steps);
      ok := Enter(request, now);
      forall i | 0 <= i < |before| && PassesAt(steps, i) && ok && ClockRises(steps)
          ensures steps[i].request != request {
        if steps[i].request == request {
          RequestPassesOnce(steps, i, |before|);
        }
      }
    }

    method Enter(request: Request, now: int) returns (ok: bool)
      modifies this`seen
      ensures seen == Check(old(seen), Step(request, now))
      ensures ok <==> Passes(old(seen), Step(request, now))
    {
      if !Fresh(Step(request, now)) {
        return false;
      }
      seen := Retained(seen, now);
      if request.connection in seen || |seen| >= LIMIT {
        return false;
      }
      seen := seen[request.connection := request.expires];
      return true;
    }
  }
}
