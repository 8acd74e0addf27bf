/**
 * The integer token bucket of crates/epochgrid-core/src/capacity.rs, and the sliding-window
 * statement it implements: a call is admitted exactly when every window that ends at it, the call
 * included, stays within burst + rate * length.
 */
module RateLimit {
  import opened Prelude

  /** One token, in the nanotoken unit of the counters. */
  const TOKEN: nat := 1_000_000_000

  /** A monotonic instant in nanoseconds; a `Duration` holds at most u64::MAX whole seconds. */
  const MAX_INSTANT: nat := 0xffff_ffff_ffff_ffff * 1_000_000_000
  type Instant = t: nat | t <= MAX_INSTANT

  type U32 = n: nat | n <= 0xffff_ffff
  type U64 = n: nat | n <= 0xffff_ffff_ffff_ffff

  /** A finished call: its effective time (the running maximum of the clock) and the verdict. */
  datatype Call = Call(at: nat, admitted: bool)

  function Max(a: nat, b: nat): nat { if a < b then b else a }
  function Min(a: int, b: int): int { if a < b then a else b }

  /** Admitted calls at or after `since`. */
  function Admitted(calls: seq<Call>, since: nat): nat {
    if calls == [] then 0
    else
      var last := calls[|calls| - 1];
      Admitted(calls[..|calls| - 1], since) + if last.admitted && since <= last.at then 1 else 0
  }

  /** Admitted calls between `from` and `until`, both included. */
  function AdmittedWithin(calls: seq<Call>, from: nat, until: nat): nat {
    if calls == [] then 0
    else
      var last := calls[|calls| - 1];
      AdmittedWithin(calls[..|calls| - 1], from, until) + if last.admitted && from <= last.at <= until then 1 else 0
  }

  /** Does the window [since, now] have room for one more admission? */
  predicate WindowFits(calls: seq<Call>, since: nat, now: nat, rate: nat, burst: nat)
    requires since <= now
  {
    TOKEN * (Admitted(calls, since) + 1) <= burst * TOKEN + rate * (now - since)
  }

  /** The declarative specification of one decision. */
  ghost predicate Fits(calls: seq<Call>, now: nat, rate: nat, burst: nat) {
    forall since: nat | since <= now :: WindowFits(calls, since, now, rate, burst)
  }

  /** The decisions the specification prescribes for a clock that reads `clock[0], clock[1], ...`. */
  ghost function Prescribed(start: nat, clock: seq<nat>, rate: nat, burst: nat): (calls: seq<Call>)
    ensures |calls| == |clock|
  {
    if clock == [] then []
    else
      var before := Prescribed(start, clock[..|clock| - 1], rate, burst);
      var now := Effective(start, clock);
      before + [Call(now, Fits(before, now, rate, burst))]
  }

  /** The running maximum of the clock readings, never below the creation instant. */
  function Effective(start: nat, clock: seq<nat>): nat {
    if clock == [] then start else Max(Effective(start, clock[..|clock| - 1]), clock[|clock| - 1])
  }

  class RateLimit {
    var tokens: U64
    var last: Instant
    const rate: U64
    const burst: U64

    // The construction arguments and every clock reading so far.
    ghost const perSecond: U32
    ghost const size: U32
    ghost const start: Instant
    ghost var clock: seq<nat>

    /** The whole past as the specification prescribes it. */
    ghost function Calls(): seq<Call>
      reads this
    {
      Prescribed(start, clock, perSecond, size)
    }

    /** The counter tracks the windows of the whole past. */
    ghost predicate Valid()
      reads this
    {
      && rate == perSecond
      && burst == size * TOKEN
      && last == Effective(start, clock)
      && Tracks(Calls(), tokens, last, rate, burst)
    }

    constructor (rate: U32, burst: U32, now: Instant)
      ensures Valid()
      ensures perSecond == rate && size == burst && start == now && clock == []
    {
      this.rate := rate;
      this.burst := burst * TOKEN;
      tokens := burst * TOKEN;
      last := now;
      perSecond, size, start, clock := rate, burst, now, [];
      new;
      TracksStart(last, this.rate, this.burst);
    }

    /** Admits a call exactly when the specification does, whatever the clock did before. */
    method Allow(now: Instant) returns (admitted: bool)
      requires Valid()
      modifies this`tokens, this`last, this`clock
      ensures Valid()
      ensures clock == old(clock) + [now]
      ensures last == Max(old(last), now)
      ensures admitted <==> Fits(old(Calls()), last, perSecond, size)
      ensures Calls() == old(Calls()) + [Call(last, admitted)]
    {
      PrescribedTimes(start, clock, perSecond, size);
      var elapsed := if last <= now then now - last else 0;
      StepSound(Calls(), tokens, last, now, perSecond, size);
      assert (clock + [now])[..|clock|] == clock;
      clock := clock + [now];
      tokens := Refill(tokens, elapsed, rate, burst);
      last := Max(now, last);
      if tokens < TOKEN {
        return false;
      }
      tokens := tokens - TOKEN;
      return true;
    }
  }

  /**
   * The counter after `elapsed` nanoseconds, with the operations of the source: a saturating u128
   * product, its cast to u64, a saturating u64 sum and two caps.
   */
  function Refill(tokens: U64, elapsed: nat, rate: U64, burst: U64): (r: U64)
    ensures r <= burst
  {
    var credit := Min(Min(elapsed * rate, U128_MAX), burst);
    Min(Min(tokens + credit, U64_MAX), burst)
  }

  /** Room left in the window [since, now], in nanotokens. */
  function Slack(calls: seq<Call>, since: nat, now: nat, rate: nat, burst: nat): int
    requires since <= now
  {
    burst + rate * (now - since) - TOKEN * Admitted(calls, since)
  }

  /**
   * A counter value is right for a past when it is the tightest slack over all windows ending now:
   * no window has less room left, and unless the bucket is full some window has exactly that much.
   */
  ghost predicate Tracks(calls: seq<Call>, tokens: nat, now: nat, rate: nat, burst: nat) {
    && tokens <= burst
    && (forall since: nat | since <= now :: tokens <= Slack(calls, since, now, rate, burst))
    && (tokens == burst || exists since: nat | since <= now :: tokens == Slack(calls, since, now, rate, burst))
  }

  /** Nothing saturates: u128 holds every product, and u64 every sum. */
  lemma RefillExact(tokens: U64, elapsed: nat, rate: U32, size: U32)
    requires elapsed <= MAX_INSTANT && tokens <= size * TOKEN
    ensures size * TOKEN <= U64_MAX
    ensures 0 <= rate * elapsed
    ensures Refill(tokens, elapsed, rate, size * TOKEN) == Min(tokens + rate * elapsed, size * TOKEN)
  {
    MulMonotone(elapsed, MAX_INSTANT, rate);
    MulMonotone(rate, 0xffff_ffff, MAX_INSTANT);
  }

  /** One call of the source, between two counters that are right for their pasts. */
  lemma StepSound(calls: seq<Call>, tokens: U64, last: Instant, now: Instant, rate: U32, size: U32)
    requires Tracks(calls, tokens, last, rate, size * TOKEN)
    requires forall c | c in calls :: c.at <= last
    ensures size * TOKEN <= U64_MAX
    ensures var at := Max(now, last);
            var filled := Refill(tokens, if last <= now then now - last else 0, rate, size * TOKEN);
            && (filled >= TOKEN <==> Fits(calls, at, rate, size))
            && (filled < TOKEN ==> Tracks(calls + [Call(at, false)], filled, at, rate, size * TOKEN))
            && (filled >= TOKEN ==> Tracks(calls + [Call(at, true)], filled - TOKEN, at, rate, size * TOKEN))
  {
    var at := Max(now, last);
    RefillExact(tokens, at - last, rate, size);
    TracksAdvance(calls, tokens, last, at, rate, size * TOKEN);
    var filled := Refill(tokens, at - last, rate, size * TOKEN);
    TracksDecides(calls, filled, at, rate, size * TOKEN, size);
    TracksRecord(calls, filled, at, rate, size * TOKEN);
  }

  lemma MulMonotone(a: nat, b: nat, c: nat)
    requires a <= b
    ensures 0 <= a * c <= b * c
  {}

  lemma Distribute(rate: nat, a: nat, b: nat)
    ensures rate * (a + b) == rate * a + rate * b
    ensures rate * a >= 0 && rate * b >= 0
  {}

  lemma NoneAfter(calls: seq<Call>, since: nat)
    requires forall c | c in calls :: c.at < since
    ensures Admitted(calls, since) == 0
  {}

  lemma TracksStart(now: nat, rate: nat, burst: nat)
    ensures Tracks([], burst, now, rate, burst)
  {}

  /** Waiting earns rate * elapsed, capped at the bucket size. */
  lemma TracksAdvance(calls: seq<Call>, tokens: nat, t0: nat, t1: nat, rate: nat, burst: nat)
    requires t0 <= t1 && Tracks(calls, tokens, t0, rate, burst)
    requires forall c | c in calls :: c.at <= t0
    ensures Min(tokens + rate * (t1 - t0), burst) >= 0
    ensures Tracks(calls, Min(tokens + rate * (t1 - t0), burst), t1, rate, burst)
  {
    MulMonotone(0, rate, t1 - t0);
    forall since: nat | since <= t1
      ensures Min(tokens + rate * (t1 - t0), burst) <= Slack(calls, since, t1, rate, burst)
      ensures since <= t0 ==>
                var before := Slack(calls, since, t0, rate, burst);
                Slack(calls, since, t1, rate, burst) == before + rate * (t1 - t0)
    {
      if since <= t0 {
        Distribute(rate, t0 - since, t1 - t0);
        assert (t0 - since) + (t1 - t0) == t1 - since;
        assert tokens <= Slack(calls, since, t0, rate, burst);
      } else {
        NoneAfter(calls, since);
        MulMonotone(0, rate, t1 - since);
      }
    }
  }

  /** A token is available exactly when every window has room for this call. */
  lemma TracksDecides(calls: seq<Call>, tokens: nat, now: nat, rate: nat, burst: nat, size: nat)
    requires burst == size * TOKEN && Tracks(calls, tokens, now, rate, burst)
    ensures tokens >= TOKEN <==> Fits(calls, now, rate, size)
  {
    if tokens < TOKEN {
      var since: nat :| since <= now && Slack(calls, since, now, rate, burst) < TOKEN by {
        if tokens == burst {
          assert Slack(calls, now, now, rate, burst) < TOKEN;
        }
      }
      assert !WindowFits(calls, since, now, rate, size);
    } else {
      forall since: nat | since <= now
        ensures WindowFits(calls, since, now, rate, size)
      {
        assert tokens <= Slack(calls, since, now, rate, burst);
      }
    }
  }

  /** An admission takes one token from every window that ends now; a denial takes none. */
  lemma TracksRecord(calls: seq<Call>, tokens: nat, now: nat, rate: nat, burst: nat)
    requires Tracks(calls, tokens, now, rate, burst)
    ensures tokens < TOKEN ==> Tracks(calls + [Call(now, false)], tokens, now, rate, burst)
    ensures tokens >= TOKEN ==> Tracks(calls + [Call(now, true)], tokens - TOKEN, now, rate, burst)
  {
    var after := calls + [Call(now, tokens >= TOKEN)];
    assert after[..|after| - 1] == calls;
    forall since: nat | since <= now
      ensures var taken := if tokens >= TOKEN then TOKEN else 0;
              Slack(after, since, now, rate, burst) == Slack(calls, since, now, rate, burst) - taken
    {
    }
    if tokens == burst {
      assert tokens <= Slack(calls, now, now, rate, burst);
      assert tokens >= TOKEN ==> tokens - TOKEN == Slack(after, now, now, rate, burst);
    }
  }

  lemma {:induction false} PrescribedTimes(start: nat, clock: seq<nat>, rate: nat, burst: nat)
    ensures forall c | c in Prescribed(start, clock, rate, burst) :: c.at <= Effective(start, clock)
  {
    if clock != [] {
      PrescribedTimes(start, clock[..|clock| - 1], rate, burst);
    }
  }

  lemma {:induction false} WithinIsAdmitted(calls: seq<Call>, from: nat, until: nat)
    ensures AdmittedWithin(calls, from, until) <= Admitted(calls, from)
  {
    if calls != [] {
      WithinIsAdmitted(calls[..|calls| - 1], from, until);
    }
  }

  /**
   * The promise of the limiter over whole runs: whatever the clock does, every window of effective
   * time, wherever it starts and ends, admits at most burst + rate * length.
   */
  lemma {:induction false} WindowBound(start: nat, clock: seq<nat>, rate: nat, burst: nat, from: nat, until: nat)
    requires from <= until
    ensures TOKEN * AdmittedWithin(Prescribed(start, clock, rate, burst), from, until)
            <= burst * TOKEN + rate * (until - from)
  {
    MulMonotone(0, rate, until - from);
    if clock != [] {
      var init := clock[..|clock| - 1];
      var before := Prescribed(start, init, rate, burst);
      var now := Effective(start, clock);
      WindowBound(start, init, rate, burst, from, until);
      var calls := Prescribed(start, clock, rate, burst);
      assert calls[..|calls| - 1] == before;
      if Fits(before, now, rate, burst) && from <= now <= until {
        WithinIsAdmitted(before, from, until);
        assert WindowFits(before, from, now, rate, burst);
        Distribute(rate, now - from, until - now);
        assert (now - from) + (until - now) == until - from;
      }
    }
  }
}
