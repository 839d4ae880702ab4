/** The rate limit of manual runs, per tenant, with instants and durations in whole microseconds. */
module RateLimit {
  import opened Wrappers
  import Tables

  type Tenant = Tables.Tenant
  type Instant = int // microseconds, from whatever clock

  const SECOND: int := 1_000_000
  const MILLISECOND: int := 1_000

  /** The `manual_sync` row of a tenant. */
  datatype ManualState = ManualState(lastWatermark: Option<Instant>, lastRunAt: Option<Instant>,
                                     lastStatus: string, lastErrorClass: Option<string>)

  type States = map<Tenant, ManualState>

  function Minimum(setting: int): (seconds: int)
    ensures seconds >= 1
  {
    if setting > 1 then setting else 1
  }

  function LastRun(states: States, tenant: Tenant): Option<Instant> {
    if tenant in states then states[tenant].lastRunAt else None
  }

  /** How long the tenant's window stays closed after `now`; nothing or less when it is open. */
  function Remaining(states: States, tenant: Tenant, setting: int, now: Instant): int {
    match LastRun(states, tenant)
    case None => 0
    case Some(last) => Minimum(setting) * SECOND - (now - last)
  }

  /** The advertised wait in seconds: the remaining time and 999 milliseconds, rounded down.  The program
      computes it in floating point, so the sum is off by `error`. */
  function RetryAfter(remaining: int, error: real): (seconds: int)
    requires remaining > 0
    ensures seconds >= 1
  {
    var rounded := (((remaining + 999 * MILLISECOND) as real + error) / (SECOND as real)).Floor;
    if rounded > 1 then rounded else 1
  }

  /** Less than a microsecond: what three operations on doubles of less than 2^30 seconds can err by. */
  predicate IsSmall(error: real) {
    -1.0 < error < 1.0
  }

  predicate Admitted(states: States, tenant: Tenant, setting: int, now: Instant) {
    Remaining(states, tenant, setting, now) <= 0
  }

  function Stamped(states: States, tenant: Tenant, now: Instant): States {
    states[tenant := ManualState(Some(now), Some(now), "ok", None)]
  }

  function Enforced(states: States, tenant: Tenant, setting: int, now: Instant): States {
    if Admitted(states, tenant, setting, now) then Stamped(states, tenant, now) else states
  }

  class CanvasService {
    const setting: int
    var states: States

    constructor (minIntervalSeconds: int)
      ensures setting == minIntervalSeconds && states == map[]
    {
      setting, states := minIntervalSeconds, map[];
    }

    /** The instant of an accepted run, or the seconds to wait. */
    method EnforceManualRateLimit(tenant: Tenant, now: Instant, error: real) returns (r: Result<Instant, int>)
      modifies this
      ensures states == Enforced(old(states), tenant, setting, now)
      ensures r == if Admitted(old(states), tenant, setting, now) then Ok(now)
                   else Err(RetryAfter(Remaining(old(states), tenant, setting, now), error))
      ensures r.Ok? <==>
        tenant in old(states) && old(states)[tenant].lastRunAt.Some? ==>
          var elapsed := now - old(states)[tenant].lastRunAt.value;
          elapsed >= 1_000_000 && elapsed >= setting * 1_000_000
    {
      var lastRun := LastRun(states, tenant);
      var minimum := Minimum(setting);
      if lastRun.Some? {
        var elapsed := now - lastRun.value;
        if elapsed < minimum * SECOND {
          return Err(RetryAfter(minimum * SECOND - elapsed, error));
        }
      }
      StampManualRun(tenant, now);
      r := Ok(now);
    }

    method StampManualRun(tenant: Tenant, when: Instant)
      modifies this`states
      ensures states == Stamped(old(states), tenant, when)
    {
      if tenant !in states {
        states := states[tenant := ManualState(Some(when), Some(when), "ok", None)];
        return;
      }
      var state := states[tenant];
      state := state.(lastRunAt := Some(when));
      state := state.(lastWatermark := Some(when));
      state := state.(lastStatus := "ok", lastErrorClass := None);
      states := states[tenant := state];
    }
  }

  // ---- Every sequence of calls ----

  datatype Call = Call(tenant: Tenant, now: Instant)

  function After(initial: States, setting: int, calls: seq<Call>): States {
    if calls == [] then initial
    else
      var n := |calls| - 1;
      Enforced(After(initial, setting, calls[..n]), calls[n].tenant, setting, calls[n].now)
  }

  /** The instants of the accepted runs of a tenant, in the order of the calls. */
  function Accepted(initial: States, setting: int, calls: seq<Call>, tenant: Tenant): seq<Instant> {
    if calls == [] then []
    else
      var n := |calls| - 1;
      var before := Accepted(initial, setting, calls[..n], tenant);
      if calls[n].tenant == tenant && Admitted(After(initial, setting, calls[..n]), tenant, setting, calls[n].now)
      then before + [calls[n].now] else before
  }

  predicate Spaced(stamps: seq<Instant>, gap: int) {
    forall i :: 0 < i < |stamps| ==> stamps[i] >= stamps[i - 1] + gap
  }

  /** Whatever the clock reads, accepted runs of a tenant are at least the minimum apart, and the state
      row holds the last of them. */
  lemma {:induction false} AcceptedRunsAreSpaced(initial: States, setting: int, calls: seq<Call>, tenant: Tenant)
    ensures var stamps := Accepted(initial, setting, calls, tenant);
      && Spaced(stamps, Minimum(setting) * SECOND)
      && LastRun(After(initial, setting, calls), tenant)
         == (if stamps == [] then LastRun(initial, tenant) else Some(stamps[|stamps| - 1]))
  {
    if calls != [] {
      AcceptedRunsAreSpaced(initial, setting, calls[..|calls| - 1], tenant);
    }
  }

  /** How many stamps lie between two instants. */
  function Count(stamps: seq<Instant>, from: Instant, to: Instant): nat {
    if stamps == [] then 0
    else
      var n := |stamps| - 1;
      Count(stamps[..n], from, to) + if from <= stamps[n] <= to then 1 else 0
  }

  lemma OneGapMore(k: nat, gap: int)
    requires gap > 0
    ensures (k + 1) * gap == k * gap + gap && k * gap >= 0
  {}

  lemma {:induction false} SpacedCount(stamps: seq<Instant>, from: Instant, to: Instant, gap: int)
    requires gap > 0 && Spaced(stamps, gap)
    ensures Count(stamps, from, to) > 0 ==>
      (Count(stamps, from, to) - 1) * gap <= to - from
      && (Count(stamps, from, to) - 1) * gap <= stamps[|stamps| - 1] - from
  {
    if stamps != [] {
      var n := |stamps| - 1;
      var c := Count(stamps[..n], from, to);
      assert Spaced(stamps[..n], gap);
      SpacedCount(stamps[..n], from, to, gap);
      if c > 0 {
        assert stamps[n] >= stamps[..n][n - 1] + gap;
        OneGapMore(c - 1, gap);
      }
    }
  }

  /** A window of L seconds holds at most floor(L / minimum) + 1 accepted runs. */
  lemma WindowHoldsFew(initial: States, setting: int, calls: seq<Call>, tenant: Tenant, from: Instant, seconds: nat)
    ensures Count(Accepted(initial, setting, calls, tenant), from, from + seconds * SECOND)
            <= seconds / Minimum(setting) + 1
  {
    var stamps := Accepted(initial, setting, calls, tenant);
    AcceptedRunsAreSpaced(initial, setting, calls, tenant);
    SpacedCount(stamps, from, from + seconds * SECOND, Minimum(setting) * SECOND);
    FewFit(Count(stamps, from, from + seconds * SECOND), seconds, Minimum(setting));
  }

  lemma FewFit(count: nat, seconds: nat, minimum: int)
    requires minimum > 0 && (count > 0 ==> (count - 1) * (minimum * SECOND) <= seconds * SECOND)
    ensures count <= seconds / minimum + 1
  {
    if count > 0 {
      var gaps := (count - 1) * minimum;
      assert gaps * SECOND == (count - 1) * (minimum * SECOND);
      assert gaps <= seconds;
      Fits(count - 1, seconds, minimum);
    }
  }

  lemma Fits(k: nat, seconds: nat, minimum: int)
    requires minimum > 0 && k * minimum <= seconds
    ensures k <= seconds / minimum
  {
    var q := seconds / minimum;
    assert seconds < (q + 1) * minimum;
    assert k >= q + 1 ==> k * minimum >= (q + 1) * minimum;
  }

  // ---- The advertised wait ----

  /** A small error matters only where the sum is a whole number of seconds: it may fall below it. */
  lemma RoundingMatters(remaining: int, error: real)
    requires remaining > 0 && IsSmall(error)
    ensures var sum := remaining + 999 * MILLISECOND;
      var rounded := if error < 0.0 && sum % SECOND == 0 then sum / SECOND - 1 else sum / SECOND;
      RetryAfter(remaining, error) == if rounded > 1 then rounded else 1
  {
    var sum := remaining + 999 * MILLISECOND;
    var q, rest := sum / SECOND, sum % SECOND;
    var x := (sum as real + error) / (SECOND as real);
    assert sum as real == q as real * 1_000_000.0 + rest as real;
    if error < 0.0 && rest == 0 {
      assert q as real - 1.0 <= x < q as real;
      assert x.Floor == q - 1;
    } else {
      assert q as real <= x < q as real + 1.0;
      assert x.Floor == q;
    }
  }

  /** The wait is at least the remaining time less a millisecond, more than that without a rounding error
      downward, and shorter than the remaining time and a second. */
  lemma RetryAfterBounds(remaining: int, error: real)
    requires remaining > 0 && IsSmall(error)
    ensures remaining - MILLISECOND <= RetryAfter(remaining, error) * SECOND < remaining + SECOND
    ensures error >= 0.0 ==> remaining - MILLISECOND < RetryAfter(remaining, error) * SECOND
  {
    RoundingMatters(remaining, error);
    hide RetryAfter;
  }

  /** A rejected caller that comes back after the wait and a millisecond is admitted, if nobody of its
      tenant was meanwhile; after the wait alone unless the remaining time is some whole seconds and a
      fraction below a millisecond, or of a millisecond that rounding took away. */
  lemma ReturningCallerIsAdmitted(states: States, tenant: Tenant, setting: int, now: Instant, error: real)
    requires !Admitted(states, tenant, setting, now) && IsSmall(error)
    ensures var remaining := Remaining(states, tenant, setting, now);
      var wait, fraction := RetryAfter(remaining, error) * SECOND, remaining % SECOND;
      && Admitted(states, tenant, setting, now + wait + MILLISECOND)
      && (Admitted(states, tenant, setting, now + wait)
          <==> remaining < SECOND || fraction == 0 || fraction > MILLISECOND
               || (fraction == MILLISECOND && error >= 0.0))
  {
    var remaining := Remaining(states, tenant, setting, now);
    RoundingMatters(remaining, error);
    RetryAfterBounds(remaining, error);
    hide RetryAfter;
  }

  /** With a minute between runs, a caller rejected two seconds and half a millisecond early is told to
      wait two seconds, and is rejected again when it does. */
  lemma WaitAloneMayBeTooShort(tenant: Tenant, error: real)
    requires IsSmall(error)
    ensures var states, now := Stamped(map[], tenant, 0), 57_999_500;
      && !Admitted(states, tenant, 60, now) && RetryAfter(Remaining(states, tenant, 60, now), error) == 2
      && !Admitted(states, tenant, 60, now + 2 * SECOND)
  {
    var states := Stamped(map[], tenant, 0);
    assert Remaining(states, tenant, 60, 57_999_500) == 2_000_500;
    assert (2_000_500 + 999 * MILLISECOND) / SECOND == 2 && (2_000_500 + 999 * MILLISECOND) % SECOND != 0;
    RoundingMatters(2_000_500, error);
    hide RetryAfter;
  }
}
