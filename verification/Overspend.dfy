/** By how much a token budget can be overrun, in every interleaving of judgements.

    The gate is read before anything is spent, so what is already admitted may still be charged
    after a counter has reached its limit.  A judgement admitted near the limit is degraded and
    pays for three answers at most, any other for six. */
module Overspend {
  import opened Counters
  import opened Options
  import opened Tokens

  // ----- what a judgement may still be charged ------------------------------------------

  function CallsLeft(degraded: bool, p: Pass): nat {
    if MayCall(degraded, p) then MaxCalls(degraded) - p.calls else 0
  }

  /** The responses a judgement past its preflight may still pay for. */
  function Ahead(stage: Stage): nat {
    match stage
    case Entered => 0
    case Classifying(degraded, p) => CallsLeft(degraded, p) + 2 * MaxCalls(degraded)
    case Marking(degraded, v, sc) => CallsLeft(degraded, v) + CallsLeft(degraded, sc)
    case Stopped => 0
  }

  function Share(j: Judgement, k: CounterKey): nat {
    if Pays(j.tenant, j.user, k) then Ahead(j.stage) else 0
  }

  function Owed(inside: seq<Judgement>, k: CounterKey): nat {
    if inside == [] then 0 else Owed(inside[..|inside| - 1], k) + Share(inside[|inside| - 1], k)
  }

  lemma {:induction false} OwedJoins(a: seq<Judgement>, b: seq<Judgement>, k: CounterKey)
    ensures Owed(a + b, k) == Owed(a, k) + Owed(b, k)
  {
    if b == [] {
      assert a + b == a;
    } else {
      OwedJoins(a, b[..|b| - 1], k);
      assert (a + b)[..|a + b| - 1] == a + b[..|b| - 1];
    }
  }

  lemma {:induction false} OwedAt(inside: seq<Judgement>, i: nat, j: Judgement, k: CounterKey)
    requires i < |inside|
    ensures Owed(inside, k) == Owed(inside[..i] + inside[i + 1..], k) + Share(inside[i], k)
    ensures Owed(inside[i := j], k) == Owed(inside[..i] + inside[i + 1..], k) + Share(j, k)
  {
    var a, b := inside[..i], inside[i + 1..];
    assert inside == a + [inside[i]] + b;
    assert inside[i := j] == a + [j] + b;
    OwedJoins(a, b, k);
    OwedJoins(a + [inside[i]], b, k);
    OwedJoins(a, [inside[i]], k);
    OwedJoins(a + [j], b, k);
    OwedJoins(a, [j], k);
    OwedOne(inside[i], k);
    OwedOne(j, k);
  }

  lemma {:induction false} OwedOne(j: Judgement, k: CounterKey)
    ensures Owed([j], k) == Share(j, k)
  {
    assert [j][..0] == [];
  }

  lemma {:induction false} OwedIsAtMostSixEach(inside: seq<Judgement>, k: CounterKey)
    ensures Owed(inside, k) <= 6 * |inside|
  {
    if inside != [] {
      OwedIsAtMostSixEach(inside[..|inside| - 1], k);
    }
  }

  // ----- the bound ----------------------------------------------------------------------

  /** The largest total that is not near the limit. */
  function LastClear(s: Settings, k: CounterKey): int {
    var t := Threshold(s, k);
    if t.Floor as real == t then t.Floor - 1 else t.Floor
  }

  lemma {:induction false} RatioShrinks(l: real, ratio: real)
    requires l > 0.0 && 0.0 < ratio < 1.0
    ensures 0.0 < l * ratio < l
  {
    var left := 1.0 - ratio;
    assert l * left > 0.0;
    assert l * ratio + l * left == l * (ratio + left) == l * 1.0;
  }

  lemma {:induction false} LimitIsPositive(s: Settings, k: CounterKey)
    requires s.Valid()
    ensures Limit(s, k) as real > 0.0
  {}

  lemma {:induction false} ThresholdIsWithin(s: Settings, k: CounterKey)
    requires s.Valid()
    ensures 0.0 < Threshold(s, k) < Limit(s, k) as real
  {
    hide Limit;
    LimitIsPositive(s, k);
    RatioShrinks(Limit(s, k) as real, s.ratio);
  }

  lemma {:induction false} ClearUpTo(s: Settings, k: CounterKey, total: nat)
    requires s.Valid()
    ensures Near(s, k, total) <==> total > LastClear(s, k)
    ensures 0 <= LastClear(s, k) < Limit(s, k)
  {
    ThresholdIsWithin(s, k);
  }

  /** The most a counter can hold.  Everybody in flight may owe six answers, but the last to be
      admitted owes three if the counter was near its limit by then, and else found it clear.
      Each preflight that an unreachable store has let through since adds six. */
  function Ceiling(s: Settings, cap: nat, k: CounterKey, unread: nat): int {
    var near := Limit(s, k) - 1 + (6 * (s.maxInflight - 1) + 3) * cap;
    var clear := LastClear(s, k) + 6 * s.maxInflight * cap;
    (if near > clear then near else clear) + 6 * unread * cap
  }

  function Held(k: CounterKey, st: State): nat { Count(st.table, k, st.now) }

  /** The step is a preflight for a judgement that pays `k`. */
  predicate Checks(st: State, e: Step, k: CounterKey) {
    e.CheckBudget? && e.i < |st.inside| && Pays(st.inside[e.i].tenant, st.inside[e.i].user, k)
  }

  /** How many judgements have been let through unread that may still count against `k`: since
      the counter last held nothing, and since one was last admitted that did read it. */
  function UnreadAfter(unread: nat, st: State, e: Step, st': State, k: CounterKey): nat {
    if Held(k, st') == 0 then 0
    else if !Checks(st, e, k) then unread
    else if !e.reachable then unread + 1
    else if e.i < |st'.inside| && st'.inside[e.i].stage.Classifying? then 0
    else unread
  }

  function Unread(trace: seq<State>, steps: seq<Step>, n: nat, k: CounterKey): nat
    requires n < |trace| == |steps| + 1
  {
    if n == 0 then 0
    else UnreadAfter(Unread(trace, steps, n - 1, k), trace[n - 1], steps[n - 1], trace[n], k)
  }

  /** What a counter holds and may still be charged stays under the ceiling. */
  ghost predicate Bounded(s: Settings, cap: nat, st: State, k: CounterKey, unread: nat) {
    && st.slots == |st.inside| <= s.maxInflight
    && Held(k, st) + Owed(st.inside, k) * cap <= Ceiling(s, cap, k, unread)
  }

  lemma {:induction false} TimesMonotone(a: nat, b: nat, cap: nat)
    requires a <= b
    ensures a * cap <= b * cap
  {}

  lemma {:induction false} TimesSplits(a: nat, b: nat, cap: nat)
    ensures (a + b) * cap == a * cap + b * cap
  {}

  lemma {:induction false} SpentCharges(s: Settings, m: Table<CounterKey>, now: nat, tenant: nat, user: nat,
                                        amount: nat, k: CounterKey)
    ensures Count(Spent(s, m, now, tenant, user, amount), k, now)
         <= Count(m, k, now) + if Pays(tenant, user, k) then amount else 0
  {}

  lemma {:induction false} TicksOnlyLower(m: Table<CounterKey>, k: CounterKey, now: nat, to: nat)
    requires now <= to
    ensures Count(m, k, to) <= Count(m, k, now)
  {}

  lemma {:induction false} StageKeepsBound(s: Settings, cap: nat, st: State, i: nat, stage: Stage, k: CounterKey,
                                        unread: nat)
    requires Bounded(s, cap, st, k, unread) && i < |st.inside|
    requires Ahead(stage) <= Ahead(st.inside[i].stage)
    ensures Bounded(s, cap, Staged(st, i, stage), k, unread)
  {
    var st' := Staged(st, i, stage);
    OwedAt(st.inside, i, st'.inside[i], k);
    TimesMonotone(Owed(st'.inside, k), Owed(st.inside, k), cap);
  }

  lemma {:induction false} OthersOweSixEach(inside: seq<Judgement>, i: nat, k: CounterKey)
    requires i < |inside|
    ensures Owed(inside, k) <= 6 * (|inside| - 1) + Ahead(inside[i].stage)
  {
    OwedAt(inside, i, inside[i], k);
    OwedIsAtMostSixEach(inside[..i] + inside[i + 1..], k);
  }

  /** A counter at `count` with `owed` answers ahead, when its last judgement was admitted. */
  lemma {:induction false} AdmittedFits(s: Settings, cap: nat, k: CounterKey, unread: nat, count: nat, owed: nat)
    requires s.Valid() && count < Limit(s, k)
    requires owed <= if Near(s, k, count) then 6 * (s.maxInflight - 1) + 3 else 6 * s.maxInflight
    ensures count + owed * cap <= Ceiling(s, cap, k, unread)
  {
    ClearUpTo(s, k, count);
    TimesMonotone(0, 6 * unread, cap);
    if Near(s, k, count) {
      TimesMonotone(owed, 6 * (s.maxInflight - 1) + 3, cap);
    } else {
      TimesMonotone(owed, 6 * s.maxInflight, cap);
    }
  }

  lemma {:induction false} OneMoreUnread(s: Settings, cap: nat, k: CounterKey, unread: nat)
    ensures Ceiling(s, cap, k, unread + 1) == Ceiling(s, cap, k, unread) + 6 * cap
  {
    assert 6 * (unread + 1) * cap == 6 * unread * cap + 6 * cap;
  }

  /** A counter that holds nothing starts over, whatever is in flight. */
  lemma {:induction false} NothingHeldIsBounded(s: Settings, cap: nat, st: State, k: CounterKey, unread: nat)
    requires s.Valid() && st.slots == |st.inside| <= s.maxInflight && Held(k, st) == 0
    ensures Bounded(s, cap, st, k, unread)
  {
    ClearUpTo(s, k, 0);
    OwedIsAtMostSixEach(st.inside, k);
    AdmittedFits(s, cap, k, unread, 0, Owed(st.inside, k));
  }

  lemma {:induction false} AdmissionKeepsBound(s: Settings, cap: nat, st: State, i: nat, reachable: bool, k: CounterKey,
                                        unread: nat)
    requires s.Valid() && Bounded(s, cap, st, k, unread)
    requires Enabled(s, cap, st, CheckBudget(i, reachable))
    ensures var e := CheckBudget(i, reachable); var st' := Apply(s, cap, st, e);
      Held(k, st') > 0 ==> Bounded(s, cap, st', k, UnreadAfter(unread, st, e, st', k))
  {
    hide Owed, Near, Ceiling;
    var e := CheckBudget(i, reachable);
    var st' := Apply(s, cap, st, e);
    OwedAt(st.inside, i, st'.inside[i], k);
    OneMoreUnread(s, cap, k, unread);
    if Checks(st, e, k) && !reachable {
      TimesMonotone(Owed(st'.inside, k), Owed(st.inside, k) + 6, cap);
      TimesSplits(Owed(st.inside, k), 6, cap);
    } else if Checks(st, e, k) && st'.inside[i].stage.Classifying? {
      OthersOweSixEach(st'.inside, i, k);
      AdmittedFits(s, cap, k, 0, Held(k, st), Owed(st'.inside, k));
    } else {
      assert Owed(st'.inside, k) == Owed(st.inside, k);
    }
  }

  lemma {:induction false} ResponseKeepsBound(s: Settings, cap: nat, st: State, e: Step, k: CounterKey, unread: nat)
    requires Bounded(s, cap, st, k, unread)
    requires e.Respond? && Enabled(s, cap, st, e)
    ensures Bounded(s, cap, Apply(s, cap, st, e), k, unread)
  {
    hide Owed, Spent, Count;
    var st' := Apply(s, cap, st, e);
    var j := st.inside[e.i];
    OwedAt(st.inside, e.i, st'.inside[e.i], k);
    SpentCharges(s, st.table, st.now, j.tenant, j.user, e.tokens, k);
    if Pays(j.tenant, j.user, k) {
      assert Ahead(st'.inside[e.i].stage) + 1 <= Ahead(j.stage);
      TimesMonotone(Owed(st'.inside, k) + 1, Owed(st.inside, k), cap);
      TimesSplits(Owed(st'.inside, k), 1, cap);
    }
  }

  lemma {:induction false} PlacesAreCounted(s: Settings, cap: nat, st: State, e: Step)
    requires st.slots == |st.inside| <= s.maxInflight && Enabled(s, cap, st, e)
    ensures Apply(s, cap, st, e).slots == |Apply(s, cap, st, e).inside| <= s.maxInflight
  {}

  lemma {:induction false} StepKeepsBound(s: Settings, cap: nat, st: State, e: Step, k: CounterKey, unread: nat)
    requires s.Valid() && Bounded(s, cap, st, k, unread) && Enabled(s, cap, st, e)
    ensures var st' := Apply(s, cap, st, e); Bounded(s, cap, st', k, UnreadAfter(unread, st, e, st', k))
  {
    hide Owed, Ceiling, Ahead;
    var st' := Apply(s, cap, st, e);
    PlacesAreCounted(s, cap, st, e);
    if Held(k, st') == 0 {
      NothingHeldIsBounded(s, cap, st', k, 0);
    } else {
      match e
      case Tick(to) => TicksOnlyLower(st.table, k, st.now, to);
      case Enter(t, u) =>
        OwedJoins(st.inside, [Judgement(t, u, Entered)], k);
        OwedOne(Judgement(t, u, Entered), k);
        assert Ahead(Entered) == 0 by { NothingAhead(); }
      case CheckBudget(i, reachable) => AdmissionKeepsBound(s, cap, st, i, reachable, k, unread);
      case Respond(_, _, _, _, _) => ResponseKeepsBound(s, cap, st, e, k, unread);
      case StartMarking(i) =>
        MarkingIsNoMore(st.inside[i].stage);
        StageKeepsBound(s, cap, st, i, st'.inside[i].stage, k, unread);
      case Stop(i) =>
        NothingAhead();
        StageKeepsBound(s, cap, st, i, Stopped, k, unread);
      case Leave(i) =>
        OwedAt(st.inside, i, st.inside[i], k);
        TimesMonotone(Owed(st'.inside, k), Owed(st.inside, k), cap);
    }
  }

  lemma {:induction false} NothingAhead()
    ensures Ahead(Entered) == 0 && Ahead(Stopped) == 0
  {}

  lemma {:induction false} MarkingIsNoMore(stage: Stage)
    requires stage.Classifying?
    ensures Ahead(Marking(stage.degraded, Pass(0, false), Pass(0, false))) <= Ahead(stage)
  {}

  lemma {:induction false} RunKeepsBound(s: Settings, cap: nat, trace: seq<State>, steps: seq<Step>, n: nat,
                                        k: CounterKey)
    requires s.Valid() && IsRun(s, cap, trace, steps) && n < |trace|
    ensures Bounded(s, cap, trace[n], k, Unread(trace, steps, n, k))
  {
    if n == 0 {
      NothingHeldIsBounded(s, cap, START, k, 0);
    } else {
      RunKeepsBound(s, cap, trace, steps, n - 1, k);
      StepKeepsBound(s, cap, trace[n - 1], steps[n - 1], k, Unread(trace, steps, n - 1, k));
    }
  }

  /** In every interleaving, window expiry included, a token counter stays within the ceiling,
      which is below its limit plus six answers for each judgement that may be in flight and six
      more for each that was let through unread and may still count. */
  lemma {:induction false} OverspendIsBounded(s: Settings, cap: nat, trace: seq<State>, steps: seq<Step>, n: nat,
                                        k: CounterKey)
    requires s.Valid() && IsRun(s, cap, trace, steps) && n < |trace|
    ensures var unread := Unread(trace, steps, n, k);
      Held(k, trace[n]) <= Ceiling(s, cap, k, unread) <= Limit(s, k) - 1 + 6 * (s.maxInflight + unread) * cap
  {
    var unread := Unread(trace, steps, n, k);
    RunKeepsBound(s, cap, trace, steps, n, k);
    TimesMonotone(0, Owed(trace[n].inside, k), cap);
    ClearUpTo(s, k, 0);
    TimesMonotone(6 * (s.maxInflight - 1) + 3, 6 * s.maxInflight, cap);
    TimesSplits(6 * s.maxInflight, 6 * unread, cap);
  }

  // ----- the bound is the least one -----------------------------------------------------

  /** A state of some run, where `unread` judgements let through unread may still count. */
  ghost predicate Reachable(s: Settings, cap: nat, k: CounterKey, st: State, unread: nat) {
    exists trace, steps ::
      IsRun(s, cap, trace, steps) && trace[|steps|] == st && Unread(trace, steps, |steps|, k) == unread
  }

  lemma {:induction false} UnreadOfOneMore(trace: seq<State>, steps: seq<Step>, st: State, e: Step, n: nat, k: CounterKey)
    requires n < |trace| == |steps| + 1
    ensures Unread(trace + [st], steps + [e], n, k) == Unread(trace, steps, n, k)
  {
    if n > 0 { UnreadOfOneMore(trace, steps, st, e, n - 1, k); }
  }

  lemma {:induction false} StepReaches(s: Settings, cap: nat, k: CounterKey, st: State, unread: nat, e: Step, st': State)
    requires Reachable(s, cap, k, st, unread) && Enabled(s, cap, st, e) && st' == Apply(s, cap, st, e)
    ensures Reachable(s, cap, k, st', UnreadAfter(unread, st, e, st', k))
  {
    hide Apply, Enabled, UnreadAfter;
    var trace, steps :|
      IsRun(s, cap, trace, steps) && trace[|steps|] == st && Unread(trace, steps, |steps|, k) == unread;
    UnreadOfOneMore(trace, steps, st', e, |steps|, k);
    assert IsRun(s, cap, trace + [st'], steps + [e]);
    assert Unread(trace + [st'], steps + [e], |steps| + 1, k) == UnreadAfter(unread, st, e, st', k);
  }

  lemma {:induction false} StartIsReachable(s: Settings, cap: nat, k: CounterKey)
    ensures Reachable(s, cap, k, START, 0)
  {
    assert IsRun(s, cap, [START], []);
    assert Unread([START], [], 0, k) == 0;
  }

  /** Windows last, answers cost something, and a user's limit is not above the tenant's. */
  ghost predicate Favourable(s: Settings, cap: nat, k: CounterKey) {
    s.Valid() && s.window > 0 && cap > 0 && (k.User? ==> s.userLimit <= s.tenantLimit)
  }

  /** Who sends the `n`th judgement: for a tenant's counter somebody new each time. */
  function Sender(k: CounterKey, n: nat): nat { if k.User? then k.user else n }

  predicate Ours(k: CounterKey, m: nat, j: Judgement) {
    j.tenant == k.tenant && if k.User? then j.user == k.user else j.user < m
  }

  /** The other counter that a preflight reads tells it nothing that `k` does not. */
  ghost predicate Quiet(k: CounterKey, st: State, m: nat) {
    if k.User? then Count(st.table, Tenant(k.tenant), st.now) == Count(st.table, k, st.now)
    else forall u: nat :: u >= m ==> User(k.tenant, u) !in st.table
  }

  /** A reachable state after `m` judgements, all of them for `k`. */
  ghost predicate Reached(s: Settings, cap: nat, k: CounterKey, st: State, m: nat, unread: nat) {
    && Reachable(s, cap, k, st, unread) && st.slots == |st.inside| && (unread > 0 ==> Held(k, st) > 0)
    && Quiet(k, st, m) && forall j | j in st.inside :: Ours(k, m, j)
  }

  lemma {:induction false} SpentExactly(s: Settings, m: Table<CounterKey>, now: nat, tenant: nat, user: nat,
                                        amount: nat, k: CounterKey)
    requires s.window > 0
    ensures Count(Spent(s, m, now, tenant, user, amount), k, now)
         == Count(m, k, now) + if Pays(tenant, user, k) then amount else 0
    ensures !Pays(tenant, user, k) && k !in m ==> k !in Spent(s, m, now, tenant, user, amount)
  {}

  /** What the preflight of the next judgement answers. */
  lemma {:induction false} NextIsAdmitted(s: Settings, cap: nat, k: CounterKey, st: State, m: nat)
    requires Favourable(s, cap, k) && Quiet(k, st, m) && Held(k, st) < Limit(s, k)
    ensures Preflight(s, st.table, st.now, k.tenant, Sender(k, m)) == Admitted(Near(s, k, Held(k, st)))
  {
    if k.User? {
      TenantIsNoTighter(s, k);
      ClearUpTo(s, k, Held(k, st));
      ClearUpTo(s, Tenant(k.tenant), Held(k, st));
    } else {
      ClearUpTo(s, User(k.tenant, m), 0);
    }
  }

  lemma {:induction false} TenantIsNoTighter(s: Settings, k: CounterKey)
    requires s.Valid() && k.User? && s.userLimit <= s.tenantLimit
    ensures LastClear(s, k) <= LastClear(s, Tenant(k.tenant)) && Limit(s, k) <= Limit(s, Tenant(k.tenant))
  {
    RatioKeepsOrder(s.userLimit as real, s.tenantLimit as real, s.ratio);
  }

  lemma {:induction false} RatioKeepsOrder(a: real, b: real, ratio: real)
    requires a <= b && 0.0 < ratio
    ensures a * ratio <= b * ratio
  {}

  function Fresh(degraded: bool): Stage { Classifying(degraded, Pass(0, false)) }

  lemma {:induction false} Entering(s: Settings, cap: nat, k: CounterKey, st: State, m: nat, unread: nat, reachable: bool)
    returns (st': State)
    requires Favourable(s, cap, k) && Reached(s, cap, k, st, m, unread)
    requires st.slots < s.maxInflight && (reachable ==> Held(k, st) < Limit(s, k))
    requires !reachable ==> Held(k, st) > 0
    ensures Reached(s, cap, k, st', m + 1, if reachable then 0 else unread + 1)
    ensures st'.table == st.table && st'.now == st.now
    ensures st'.inside == st.inside
         + [Judgement(k.tenant, Sender(k, m), Fresh(reachable && Near(s, k, Held(k, st))))]
  {
    hide Reachable, Near, Preflight;
    var e := Enter(k.tenant, Sender(k, m));
    var entered := Apply(s, cap, st, e);
    StepReaches(s, cap, k, st, unread, e, entered);
    if reachable { NextIsAdmitted(s, cap, k, st, m); }
    var check := CheckBudget(|st.inside|, reachable);
    st' := Apply(s, cap, entered, check);
    StepReaches(s, cap, k, entered, unread, check, st');
    forall j | j in st'.inside
      ensures Ours(k, m + 1, j)
    {
      if j in st.inside { assert Ours(k, m, j); }
    }
  }

  lemma {:induction false} Leaving(s: Settings, cap: nat, k: CounterKey, st: State, m: nat, unread: nat) returns (st': State)
    requires Reached(s, cap, k, st, m, unread) && st.inside != []
    ensures Reached(s, cap, k, st', m, unread) && st'.table == st.table && st'.now == st.now
    ensures st'.inside == st.inside[..|st.inside| - 1]
  {
    hide Reachable;
    var n := |st.inside| - 1;
    st' := Apply(s, cap, st, Leave(n));
    StepReaches(s, cap, k, st, unread, Leave(n), st');
    assert st.inside[n + 1..] == [];
  }

  lemma {:induction false} Answering(s: Settings, cap: nat, k: CounterKey, st: State, m: nat, unread: nat, i: nat, task: Task,
                                        tokens: nat, good: bool) returns (st': State)
    requires Favourable(s, cap, k) && Reached(s, cap, k, st, m, unread)
    requires i < |st.inside| && tokens <= cap && Awaits(st.inside[i].stage, task)
    ensures Reached(s, cap, k, st', m, unread) && Held(k, st') == Held(k, st) + tokens
    ensures st'.inside == st.inside[i := st.inside[i].(stage := AfterCall(st.inside[i].stage, task, good))]
  {
    hide Reachable, Spent, Count;
    var e := Respond(i, task, tokens, good, true);
    var j := st.inside[i];
    st' := Apply(s, cap, st, e);
    StepReaches(s, cap, k, st, unread, e, st');
    assert Ours(k, m, j);
    SpentExactly(s, st.table, st.now, j.tenant, j.user, tokens, k);
    SpentExactly(s, st.table, st.now, j.tenant, j.user, tokens, Tenant(k.tenant));
    forall u: nat
      ensures k.Tenant? && u >= m && User(k.tenant, u) !in st.table ==> User(k.tenant, u) !in st'.table
    {
      SpentExactly(s, st.table, st.now, j.tenant, j.user, tokens, User(k.tenant, u));
    }
  }

  /** One judgement that costs one token, in a free place. */
  lemma {:induction false} OneToken(s: Settings, cap: nat, k: CounterKey, st: State, m: nat, unread: nat) returns (st': State)
    requires Favourable(s, cap, k) && Reached(s, cap, k, st, m, unread)
    requires st.slots < s.maxInflight && Held(k, st) < Limit(s, k)
    ensures Reached(s, cap, k, st', m + 1, 0) && Held(k, st') == Held(k, st) + 1
    ensures st'.inside == st.inside
  {
    hide Reached, Near, Count;
    var entered := Entering(s, cap, k, st, m, unread, true);
    var answered := Answering(s, cap, k, entered, m + 1, 0, |st.inside|, Classify, 1, true);
    st' := Leaving(s, cap, k, answered, m + 1, 0);
  }

  lemma {:induction false} Raising(s: Settings, cap: nat, k: CounterKey, st: State, m: nat, unread: nat, target: nat)
    returns (st': State, m': nat)
    requires Favourable(s, cap, k) && Reached(s, cap, k, st, m, unread) && unread == 0
    requires st.slots < s.maxInflight && Held(k, st) <= target < Limit(s, k)
    ensures Reached(s, cap, k, st', m', 0) && Held(k, st') == target
    ensures st'.inside == st.inside
    decreases target - Held(k, st)
  {
    if Held(k, st) == target {
      st', m' := st, m;
    } else {
      var next := OneToken(s, cap, k, st, m, unread);
      st', m' := Raising(s, cap, k, next, m + 1, 0, target);
    }
  }

  /** `n` judgements admitted on an untouched counter, none of which has been answered yet. */
  lemma {:induction false} Filling(s: Settings, cap: nat, k: CounterKey, n: nat) returns (st: State)
    requires Favourable(s, cap, k) && n <= s.maxInflight
    ensures Reached(s, cap, k, st, n, 0) && Held(k, st) == 0
    ensures |st.inside| == n && forall j | j in st.inside :: j.stage == Fresh(false)
  {
    if n == 0 {
      st := START;
      StartIsReachable(s, cap, k);
    } else {
      var before := Filling(s, cap, k, n - 1);
      ClearUpTo(s, k, 0);
      st := Entering(s, cap, k, before, n - 1, 0, true);
    }
  }

  predicate Sane(stage: Stage) {
    match stage
    case Classifying(d, p) => p.over || p.calls < MaxCalls(d)
    case Marking(d, v, sc) => (v.over || v.calls < MaxCalls(d)) && (sc.over || sc.calls < MaxCalls(d))
    case _ => true
  }

  /** Everything one judgement may still be charged, charged in full. */
  lemma {:induction false} Exhausting(s: Settings, cap: nat, k: CounterKey, st: State, m: nat, unread: nat, i: nat)
    returns (st': State)
    requires Favourable(s, cap, k) && Reached(s, cap, k, st, m, unread)
    requires i < |st.inside| && Sane(st.inside[i].stage)
    ensures Reached(s, cap, k, st', m, unread) && Held(k, st') == Held(k, st) + Ahead(st.inside[i].stage) * cap
    ensures |st'.inside| == |st.inside|
    ensures forall x | 0 <= x < |st.inside| && x != i :: st'.inside[x] == st.inside[x]
    decreases Ahead(st.inside[i].stage), if st.inside[i].stage.Classifying? then 1 else 0
  {
    hide Reached, Held, Near;
    var stage := st.inside[i].stage;
    if Ahead(stage) == 0 {
      st' := st;
    } else if stage.Classifying? && stage.classify.over {
      var marked := Marked(s, cap, k, st, m, unread, i);
      st' := Exhausting(s, cap, k, marked, m, unread, i);
    } else {
      var task := if Awaits(stage, Classify) then Classify else if Awaits(stage, Vague) then Vague else Score;
      var next := Answering(s, cap, k, st, m, unread, i, task, cap, false);
      assert Ahead(stage) == Ahead(next.inside[i].stage) + 1;
      TimesSplits(Ahead(next.inside[i].stage), 1, cap);
      st' := Exhausting(s, cap, k, next, m, unread, i);
    }
  }

  lemma {:induction false} Marked(s: Settings, cap: nat, k: CounterKey, st: State, m: nat, unread: nat, i: nat) returns (st': State)
    requires Reached(s, cap, k, st, m, unread) && i < |st.inside|
    requires st.inside[i].stage.Classifying? && st.inside[i].stage.classify.over
    ensures Reached(s, cap, k, st', m, unread) && Held(k, st') == Held(k, st)
    ensures var stage := Marking(st.inside[i].stage.degraded, Pass(0, false), Pass(0, false));
      st'.inside == st.inside[i := st.inside[i].(stage := stage)]
  {
    hide Reachable;
    st' := Apply(s, cap, st, StartMarking(i));
    StepReaches(s, cap, k, st, unread, StartMarking(i), st');
    assert Ours(k, m, st.inside[i]);
  }

  lemma {:induction false} ExhaustingAll(s: Settings, cap: nat, k: CounterKey, st: State, m: nat, unread: nat, n: nat)
    returns (st': State)
    requires Favourable(s, cap, k) && Reached(s, cap, k, st, m, unread)
    requires n <= |st.inside| && forall j | j in st.inside :: Sane(j.stage)
    ensures Reached(s, cap, k, st', m, unread) && Held(k, st') == Held(k, st) + Owed(st.inside[..n], k) * cap
    ensures |st'.inside| == |st.inside|
    ensures st'.inside[n..] == st.inside[n..]
  {
    hide Reachable, Held, Near, Ahead, Quiet;
    if n == 0 {
      st' := st;
    } else {
      var before := ExhaustingAll(s, cap, k, st, m, unread, n - 1);
      var j := st.inside[n - 1];
      assert before.inside[n - 1] == before.inside[n - 1..][0] == st.inside[n - 1..][0] == j;
      assert Ours(k, m, j);
      st' := Exhausting(s, cap, k, before, m, unread, n - 1);
      assert st.inside[..n][..n - 1] == st.inside[..n - 1];
      TimesSplits(Owed(st.inside[..n - 1], k), Ahead(j.stage), cap);
      assert st'.inside[n..] == before.inside[n - 1..][1..] == st.inside[n - 1..][1..];
    }
  }

  /** `b` judgements let through unread, one after the other. */
  lemma {:induction false} LettingThrough(s: Settings, cap: nat, k: CounterKey, st: State, m: nat, b: nat)
    returns (st': State, m': nat)
    requires Favourable(s, cap, k) && Reached(s, cap, k, st, m, 0) && st.slots < s.maxInflight && Held(k, st) > 0
    ensures Reached(s, cap, k, st', m', b) && st'.slots < s.maxInflight
    ensures Held(k, st') == Held(k, st) + 6 * b * cap
  {
    hide Reachable, Count, Near, Quiet;
    if b == 0 {
      st', m' := st, m;
    } else {
      var before, m1 := LettingThrough(s, cap, k, st, m, b - 1);
      TimesMonotone(0, 6 * (b - 1), cap);
      var entered := Entering(s, cap, k, before, m1, b - 1, false);
      var spent := Exhausting(s, cap, k, entered, m1 + 1, b, |before.inside|);
      st' := Leaving(s, cap, k, spent, m1 + 1, b);
      m' := m1 + 1;
      assert Ahead(Fresh(false)) == 6;
      TimesSplits(6 * (b - 1), 6, cap);
    }
  }

  lemma {:induction false} IdleOweSixEach(inside: seq<Judgement>, k: CounterKey, m: nat)
    requires forall j | j in inside :: Ours(k, m, j) && j.stage == Fresh(false)
    ensures Owed(inside, k) == 6 * |inside|
  {
    if inside != [] {
      var front, last := inside[..|inside| - 1], inside[|inside| - 1];
      assert last in inside && forall j | j in front :: j in inside;
      IdleOweSixEach(front, k, m);
    }
  }

  /** All places taken: everybody but the last is idle, and the last found the counter at
      `target`. */
  lemma {:induction false} AllAdmitted(s: Settings, cap: nat, k: CounterKey, target: nat) returns (st: State, m: nat)
    requires Favourable(s, cap, k) && target < Limit(s, k)
    ensures Reached(s, cap, k, st, m, 0) && Held(k, st) == target
    ensures |st.inside| == s.maxInflight && forall j | j in st.inside :: Sane(j.stage)
    ensures Owed(st.inside, k) == 6 * (s.maxInflight - 1) + if Near(s, k, target) then 3 else 6
  {
    hide Reachable, Near, Quiet, Count;
    var n := s.maxInflight - 1;
    var idle := Filling(s, cap, k, n);
    var raised, r := Raising(s, cap, k, idle, n, 0, target);
    IdleOweSixEach(raised.inside, k, r);
    st := Entering(s, cap, k, raised, r, 0, true);
    m := r + 1;
    var last := st.inside[n];
    OwedJoins(raised.inside, [last], k);
    OwedOne(last, k);
    assert last in st.inside && Ours(k, m, last);
  }

  /** The ceiling is reached, for every number of judgements let through unread, on every tenant's
      counter, and on every user's counter when the user's limit is not above the tenant's: no
      smaller bound holds. */
  lemma {:induction false} CeilingIsReached(s: Settings, cap: nat, k: CounterKey, unread: nat) returns (st: State)
    requires Favourable(s, cap, k)
    ensures Reachable(s, cap, k, st, unread) && Held(k, st) == Ceiling(s, cap, k, unread)
  {
    hide Reachable, Near, Quiet, Count, Owed, LastClear;
    var near := Limit(s, k) - 1 + (6 * (s.maxInflight - 1) + 3) * cap;
    var clear := LastClear(s, k) + 6 * s.maxInflight * cap;
    ClearUpTo(s, k, Limit(s, k) - 1);
    var target := if near > clear then Limit(s, k) - 1 else LastClear(s, k);
    ClearUpTo(s, k, target);
    TimesMonotone(6 * (s.maxInflight - 1) + 3, 6 * s.maxInflight, cap);
    var full, m := AllAdmitted(s, cap, k, target);
    TimesMonotone(3, Owed(full.inside, k), cap);
    var spent := ExhaustingAll(s, cap, k, full, m, 0, |full.inside|);
    assert full.inside[..|full.inside|] == full.inside;
    var left := Leaving(s, cap, k, spent, m, 0);
    var end, _ := LettingThrough(s, cap, k, left, m, unread);
    st := end;
  }
}
