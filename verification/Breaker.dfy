/** The circuit breaker in front of each Redis connection and each model provider.

    A call is two steps, because any number of calls may be in flight between them: it
    arrives and is admitted or refused, and later it may finish.  A call admitted while the
    breaker was closed can finish in any later state, and a call may never finish at all. */
module Breaker {

  datatype State = Closed | Open | HalfOpen

  /** How the awaited call ended: a result, or an exception together with what the two hooks
      say about it.  `uncounted` is asked first and wins. */
  datatype Outcome = Returned | Raised(uncounted: bool, counts: bool)
  {
    predicate PoolRefusal() { Raised? && uncounted }
    predicate CountedFailure() { Raised? && !uncounted && counts }
  }

  datatype Config = Config(threshold: nat, openSeconds: real)
  {
    /** The bounds the settings enforce. */
    predicate Valid() { threshold > 0 && openSeconds > 0.0 }
  }

  /** The four fields every transition reads and writes. */
  datatype View = View(state: State, failures: nat, openedAt: real, probeStarted: real)

  const INITIAL := View(Closed, 0, 0.0, 0.0)

  datatype Event =
    | Arrive(at: real)
    | Finish(at: real, outcome: Outcome)
    | Reset(at: real)

  predicate Admits(c: Config, v: View, now: real) {
    match v.state
    case Closed => true
    case Open => now - v.openedAt >= c.openSeconds
    case HalfOpen => now - v.probeStarted >= c.openSeconds
  }

  function AfterArrival(c: Config, v: View, now: real): View {
    if v.state.Closed? || !Admits(c, v, now) then v
    else v.(state := HalfOpen, probeStarted := now)
  }

  function Opened(v: View, now: real): View {
    v.(state := Open, openedAt := now)
  }

  function AfterFinish(c: Config, v: View, now: real, o: Outcome): View {
    if o.Returned? then
      v.(failures := 0, state := if v.state.HalfOpen? then Closed else v.state)
    else if o.PoolRefusal() then
      v.(state := if v.state.HalfOpen? then Open else v.state)
    else if o.CountedFailure() then
      if v.state.HalfOpen? then Opened(v, now)
      else
        var counted := v.(failures := v.failures + 1);
        if counted.failures >= c.threshold then Opened(counted, now) else counted
    else if v.state.HalfOpen? then Opened(v, now)
    else v
  }

  function Step(c: Config, v: View, e: Event): View {
    match e
    case Arrive(at) => AfterArrival(c, v, at)
    case Finish(at, o) => AfterFinish(c, v, at, o)
    case Reset(_) => v.(state := Closed, failures := 0)
  }

  /** One connection's breaker, as the object every call site shares. */
  class CircuitBreaker {
    const config: Config
    var state: State
    var failures: nat
    var openedAt: real
    var probeStarted: real

    ghost function Fields(): View
      reads this
    {
      View(state, failures, openedAt, probeStarted)
    }

    constructor (config: Config)
      ensures this.config == config && Fields() == INITIAL
    {
      this.config := config;
      state, failures, openedAt, probeStarted := Closed, 0, 0.0, 0.0;
    }

    /** False is the refusal the source raises. */
    method Admit(now: real) returns (admitted: bool)
      modifies this
      ensures admitted == Admits(config, old(Fields()), now)
      ensures Fields() == Step(config, old(Fields()), Arrive(now))
    {
      if state == Closed {
        return true;
      }
      if state == Open {
        if now - openedAt < config.openSeconds {
          return false;
        }
        state := HalfOpen;
      } else if now - probeStarted < config.openSeconds {
        return false;
      }
      probeStarted := now;
      return true;
    }

    method OpenNow(now: real)
      modifies this
      ensures Fields() == Opened(old(Fields()), now)
    {
      state := Open;
      openedAt := now;
    }

    method RecordFailure(now: real)
      modifies this
      ensures Fields() == Step(config, old(Fields()), Finish(now, Raised(false, true)))
    {
      if state == HalfOpen {
        OpenNow(now);
        return;
      }
      failures := failures + 1;
      if failures >= config.threshold {
        OpenNow(now);
      }
    }

    method RecordSuccess()
      modifies this
      ensures forall now :: Fields() == Step(config, old(Fields()), Finish(now, Returned))
    {
      if state == HalfOpen {
        state := Closed;
        failures := 0;
        return;
      }
      failures := 0;
    }

    /** The half of `call` after the await. */
    method Conclude(now: real, outcome: Outcome)
      modifies this
      ensures Fields() == Step(config, old(Fields()), Finish(now, outcome))
    {
      if outcome.Returned? {
        RecordSuccess();
      } else if outcome.uncounted {
        if state == HalfOpen {
          state := Open;
        }
      } else if outcome.counts {
        RecordFailure(now);
      } else if state == HalfOpen {
        OpenNow(now);
      }
    }

    method ResetToClosed()
      modifies this
      ensures forall now :: Fields() == Step(config, old(Fields()), Reset(now))
    {
      state := Closed;
      failures := 0;
    }
  }

  // ----- runs ---------------------------------------------------------------------------

  /** The fields after the first `n` events of a run that starts at `v`. */
  function After(c: Config, v: View, es: seq<Event>, n: nat): View
    requires n <= |es|
  {
    if n == 0 then v else Step(c, After(c, v, es, n - 1), es[n - 1])
  }

  /** The clock is monotonic. */
  ghost predicate Ordered(es: seq<Event>) {
    forall i, j :: 0 <= i <= j < |es| ==> es[i].at <= es[j].at
  }

  predicate AdmittedAt(c: Config, v: View, es: seq<Event>, i: nat)
    requires i < |es|
  {
    es[i].Arrive? && Admits(c, After(c, v, es, i), es[i].at)
  }

  /** Event `i` is a probe being handed back because the pool refused it. */
  predicate ProbeHandedBack(c: Config, v: View, es: seq<Event>, i: nat)
    requires i < |es|
  {
    After(c, v, es, i).state.HalfOpen? && es[i].Finish? && es[i].outcome.PoolRefusal()
  }

  /** The stretch of events `lo..hi`: the breaker is never closed in it and no probe in it is
      handed back.  A success needs no mention, since one that moves the breaker closes it. */
  ghost predicate TroubledStretch(c: Config, v: View, es: seq<Event>, lo: nat, hi: nat) {
    && lo <= hi <= |es|
    && forall i {:trigger After(c, v, es, i)} :: lo <= i < hi ==>
         !After(c, v, es, i).state.Closed? && !ProbeHandedBack(c, v, es, i)
  }

  /** No call is admitted from `v` earlier than `openSeconds` after `t`. */
  ghost predicate Guarded(v: View, t: real) {
    match v.state
    case Closed => false
    case Open => v.openedAt >= t
    case HalfOpen => v.probeStarted >= t
  }

  lemma {:induction false} StaysGuarded(c: Config, v: View, es: seq<Event>, i: nat, j: nat)
    requires i < j < |es| && Ordered(es)
    requires TroubledStretch(c, v, es, i, j + 1)
    requires AdmittedAt(c, v, es, i)
    ensures Guarded(After(c, v, es, j), es[i].at)
  {
    if j == i + 1 {
      assert After(c, v, es, j) == Step(c, After(c, v, es, i), es[i]);
    } else {
      StaysGuarded(c, v, es, i, j - 1);
      assert !After(c, v, es, j).state.Closed?;
      assert es[i].at <= es[j - 1].at;
    }
  }

  /** Two calls admitted in one troubled stretch are at least `openSeconds` apart, whatever
      the calls left over from the closed state do and however many probes hang. */
  lemma {:induction false} AdmissionsAreSpaced(c: Config, v: View, es: seq<Event>, i: nat, j: nat)
    requires i < j < |es| && Ordered(es)
    requires TroubledStretch(c, v, es, i, j + 1)
    requires AdmittedAt(c, v, es, i) && AdmittedAt(c, v, es, j)
    ensures es[j].at - es[i].at >= c.openSeconds
  {
    StaysGuarded(c, v, es, i, j);
  }

  /** How many calls the events `lo..hi` admit. */
  function Admissions(c: Config, v: View, es: seq<Event>, lo: nat, hi: nat): nat
    requires lo <= hi <= |es|
  {
    if lo == hi then 0
    else Admissions(c, v, es, lo, hi - 1) + if AdmittedAt(c, v, es, hi - 1) then 1 else 0
  }

  lemma {:induction false} SpacingAddsUp(c: Config, v: View, es: seq<Event>, lo: nat, hi: nat) returns (last: nat)
    requires lo < hi <= |es| && Ordered(es)
    requires TroubledStretch(c, v, es, lo, hi)
    requires Admissions(c, v, es, lo, hi) > 0
    ensures lo <= last < hi && AdmittedAt(c, v, es, last)
    ensures Windows(c, Admissions(c, v, es, lo, hi) - 1) <= es[last].at - es[lo].at
  {
    if Admissions(c, v, es, lo, hi - 1) == 0 {
      last := hi - 1;
    } else {
      assert TroubledStretch(c, v, es, lo, hi - 1);
      last := SpacingAddsUp(c, v, es, lo, hi - 1);
      if AdmittedAt(c, v, es, hi - 1) {
        AdmissionsAreSpaced(c, v, es, last, hi - 1);
        last := hi - 1;
      }
    }
  }

  /** `k` windows laid end to end. */
  function Windows(c: Config, k: nat): real {
    if k == 0 then 0.0 else Windows(c, k - 1) + c.openSeconds
  }

  lemma {:induction false} WindowsAre(c: Config, k: nat)
    ensures Windows(c, k) == k as real * c.openSeconds
  {
    if k > 0 {
      WindowsAre(c, k - 1);
      OneMore((k - 1) as real, c.openSeconds);
    }
  }

  lemma {:induction false} OneMore(x: real, width: real)
    ensures (x + 1.0) * width == x * width + width
  {}

  lemma {:induction false} WindowsGrow(c: Config, j: nat, k: nat)
    requires c.Valid() && j <= k
    ensures Windows(c, j) <= Windows(c, k)
  {
    if j < k {
      WindowsGrow(c, j, k - 1);
    }
  }

  /** A troubled stretch shorter than `m` open windows admits at most `m` calls, which for a
      stretch of length `T` is `floor(T / openSeconds) + 1` of them. */
  lemma {:induction false} AdmissionsAreBounded(c: Config, v: View, es: seq<Event>, lo: nat, hi: nat, m: nat)
    requires c.Valid()
    requires lo < hi <= |es| && Ordered(es)
    requires TroubledStretch(c, v, es, lo, hi)
    requires es[hi - 1].at - es[lo].at < m as real * c.openSeconds
    ensures Admissions(c, v, es, lo, hi) <= m
  {
    var k := Admissions(c, v, es, lo, hi);
    if k > m {
      var last := SpacingAddsUp(c, v, es, lo, hi);
      WindowsGrow(c, m, k - 1);
      WindowsAre(c, m);
    }
  }

  // ----- it cannot wedge ----------------------------------------------------------------

  /** What holds of the two stamps at every point of a run from the initial fields. */
  ghost predicate StampsHold(c: Config, v: View, now: real) {
    && (v.state.Open? ==> v.openedAt <= now)
    && (v.state.HalfOpen? ==> v.openedAt + c.openSeconds <= v.probeStarted <= now)
  }

  /** Half open implies that the open window has elapsed. */
  lemma {:induction false} StampsHoldThroughout(c: Config, es: seq<Event>, n: nat)
    requires c.Valid() && n < |es| && Ordered(es)
    ensures StampsHold(c, After(c, INITIAL, es, n), es[n].at)
    ensures StampsHold(c, After(c, INITIAL, es, n + 1), es[n].at)
  {
    if n > 0 {
      StampsHoldThroughout(c, es, n - 1);
      assert es[n - 1].at <= es[n].at;
    }
    assert After(c, INITIAL, es, n + 1) == Step(c, After(c, INITIAL, es, n), es[n]);
  }

  /** If calls only arrive, and none is ever heard of again, an arrival refused `openSeconds`
      ago means that some arrival up to now, this one included, is admitted. */
  lemma {:induction false} HangingCallsCannotWedge(c: Config, es: seq<Event>, i: nat, j: nat)
    requires c.Valid() && i < j < |es| && Ordered(es)
    requires forall k :: i <= k <= j ==> es[k].Arrive?
    requires es[j].at - es[i].at >= c.openSeconds
    ensures exists k :: i <= k <= j && AdmittedAt(c, INITIAL, es, k)
  {
    if forall k :: i <= k < j ==> !AdmittedAt(c, INITIAL, es, k) {
      StampsHoldThroughout(c, es, i);
      RefusalsChangeNothing(c, INITIAL, es, i, j);
      assert AdmittedAt(c, INITIAL, es, j);
    }
  }

  /** Whatever happened before, and whatever never returned, once `openSeconds` have passed since
      the later of the two stamps the next call is admitted; for a reachable half-open breaker
      that is `openSeconds` after the probe, and not before. */
  lemma {:induction false} NextCallIsAdmittedAfterTheStamps(c: Config, es: seq<Event>, n: nat)
    requires c.Valid() && n < |es| && Ordered(es) && es[n].Arrive?
    ensures var v, now := After(c, INITIAL, es, n), es[n].at;
      && (now - v.openedAt >= c.openSeconds && now - v.probeStarted >= c.openSeconds ==> AdmittedAt(c, INITIAL, es, n))
      && (v.state.HalfOpen? ==>
            (AdmittedAt(c, INITIAL, es, n) <==>
             now - v.openedAt >= c.openSeconds && now - v.probeStarted >= c.openSeconds))
  {
    StampsHoldThroughout(c, es, n);
  }

  lemma {:induction false} RefusalsChangeNothing(c: Config, v: View, es: seq<Event>, i: nat, j: nat)
    requires i <= j < |es|
    requires forall k :: i <= k < j ==> es[k].Arrive? && !AdmittedAt(c, v, es, k)
    ensures After(c, v, es, j) == After(c, v, es, i)
  {
    if i < j {
      RefusalsChangeNothing(c, v, es, i, j - 1);
      assert !AdmittedAt(c, v, es, j - 1);
    }
  }

  /** A probe the pool refused frees its place at once: the very next arrival is admitted. */
  lemma {:induction false} HandedBackProbeLetsNextIn(c: Config, es: seq<Event>, n: nat)
    requires c.Valid() && n + 1 < |es| && Ordered(es)
    requires ProbeHandedBack(c, INITIAL, es, n) && es[n + 1].Arrive?
    ensures AdmittedAt(c, INITIAL, es, n + 1)
    ensures After(c, INITIAL, es, n + 2).state == HalfOpen
  {
    StampsHoldThroughout(c, es, n);
    assert After(c, INITIAL, es, n + 1) == Step(c, After(c, INITIAL, es, n), es[n]);
    assert es[n].at <= es[n + 1].at;
    assert After(c, INITIAL, es, n + 2) == Step(c, After(c, INITIAL, es, n + 1), es[n + 1]);
  }

  /** A probe that failed, or that ended without an answer, costs a full window instead. */
  lemma {:induction false} FailedProbeCostsAWindow(c: Config, v: View, es: seq<Event>, n: nat)
    requires n + 1 < |es|
    requires After(c, v, es, n).state.HalfOpen? && es[n].Finish? && es[n + 1].Arrive?
    requires es[n].outcome.Raised? && !es[n].outcome.uncounted
    ensures AdmittedAt(c, v, es, n + 1) <==> es[n + 1].at - es[n].at >= c.openSeconds
  {
    assert After(c, v, es, n + 1) == Step(c, After(c, v, es, n), es[n]);
  }

  // ----- it opens only on evidence ------------------------------------------------------

  /** The counted failures since the last success or reset. */
  function Evidence(es: seq<Event>): nat {
    if es == [] then 0
    else
      var e := es[|es| - 1];
      if e.Reset? || (e.Finish? && e.outcome.Returned?) then 0
      else
        var earlier := Evidence(es[..|es| - 1]);
        if e.Finish? && e.outcome.CountedFailure() then earlier + 1 else earlier
  }

  /** While closed, the counter is the evidence and is below the threshold. */
  lemma {:induction false} ClosedCountsEvidence(c: Config, es: seq<Event>, n: nat)
    requires c.Valid() && n <= |es|
    ensures var v := After(c, INITIAL, es, n);
      v.state.Closed? ==> v.failures == Evidence(es[..n]) && v.failures < c.threshold
  {
    if n > 0 {
      ClosedCountsEvidence(c, es, n - 1);
      assert es[..n][..n - 1] == es[..n - 1];
    }
  }

  /** A closed breaker leaves the closed state exactly when a counted failure brings the
      evidence up to the threshold, and then it opens. */
  lemma {:induction false} OpensExactlyOnEvidence(c: Config, es: seq<Event>, n: nat)
    requires c.Valid() && n < |es|
    requires After(c, INITIAL, es, n).state.Closed?
    ensures !After(c, INITIAL, es, n + 1).state.Closed? <==>
      (es[n].Finish? && es[n].outcome.CountedFailure() && Evidence(es[..n + 1]) >= c.threshold)
    ensures !After(c, INITIAL, es, n + 1).state.HalfOpen?
  {
    ClosedCountsEvidence(c, es, n);
    assert es[..n + 1][..n] == es[..n];
    assert After(c, INITIAL, es, n + 1) == Step(c, After(c, INITIAL, es, n), es[n]);
  }

  /** The only ways back to closed are a successful probe and a reset. */
  lemma {:induction false} ClosesExactlyOnProbeSuccess(c: Config, v: View, es: seq<Event>, n: nat)
    requires n < |es| && !After(c, v, es, n).state.Closed?
    ensures After(c, v, es, n + 1).state.Closed? <==>
      (es[n].Reset? || (After(c, v, es, n).state.HalfOpen? && es[n].Finish? && es[n].outcome.Returned?))
  {
    assert After(c, v, es, n + 1) == Step(c, After(c, v, es, n), es[n]);
  }

  // ----- calls that finish late ---------------------------------------------------------

  /** The counted failures since the last success or reset, but for those that ended a half-open
      breaker's probe: these reopen it and are not added. */
  function Added(c: Config, es: seq<Event>, n: nat): nat
    requires n <= |es|
  {
    if n == 0 || es[n - 1].Reset? || (es[n - 1].Finish? && es[n - 1].outcome.Returned?) then 0
    else if es[n - 1].Finish? && es[n - 1].outcome.CountedFailure() && !After(c, INITIAL, es, n - 1).state.HalfOpen?
    then Added(c, es, n - 1) + 1
    else Added(c, es, n - 1)
  }

  lemma {:induction false} FailuresAreAdded(c: Config, es: seq<Event>, n: nat)
    requires n <= |es|
    ensures After(c, INITIAL, es, n).failures == Added(c, es, n)
  {
    if n > 0 { FailuresAreAdded(c, es, n - 1); }
  }

  /** A call that finishes while the breaker is open leaves it open.  Only a counted failure that
      brings the count to the threshold moves the next admission, to one window after itself. */
  lemma {:induction false} LateFinishMovesTheNextAdmission(c: Config, es: seq<Event>, n: nat)
    requires n + 1 < |es| && After(c, INITIAL, es, n).state.Open? && es[n].Finish? && es[n + 1].Arrive?
    ensures var late := es[n].outcome.CountedFailure() && Added(c, es, n) + 1 >= c.threshold;
      var from := if late then es[n].at else After(c, INITIAL, es, n).openedAt;
      && After(c, INITIAL, es, n + 1).state.Open?
      && (AdmittedAt(c, INITIAL, es, n + 1) <==> es[n + 1].at - from >= c.openSeconds)
  {
    FailuresAreAdded(c, es, n);
    assert After(c, INITIAL, es, n + 1) == Step(c, After(c, INITIAL, es, n), es[n]);
  }
}
