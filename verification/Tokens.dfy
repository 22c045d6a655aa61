/** The token budget: a read-only gate before the first model call, a meter after every
    response, and the in-flight counter that bounds how many judgements lie between.

    The meter never denies, so a budget can be overrun: by how much is the matter of Overspend,
    and what it warns of that of Warnings. */
module Tokens {
  import opened Counters
  import opened Links
  import opened Options

  datatype CounterKey = Tenant(tenant: nat) | User(tenant: nat, user: nat)

  datatype Settings = Settings(
    maxInflight: nat, tenantLimit: nat, userLimit: nat, window: nat, ratio: real)
  {
    predicate Valid() { maxInflight > 0 && tenantLimit > 0 && userLimit > 0 && 0.0 < ratio < 1.0 }
  }

  function Limit(s: Settings, k: CounterKey): nat {
    if k.Tenant? then s.tenantLimit else s.userLimit
  }

  predicate Pays(tenant: nat, user: nat, k: CounterKey) {
    k == Tenant(tenant) || k == User(tenant, user)
  }

  /** One execution of the charging script: both counters move, or neither. */
  function Spent(s: Settings, m: Table<CounterKey>, now: nat, tenant: nat, user: nat, amount: nat): Table<CounterKey> {
    Charged(Charged(m, Tenant(tenant), now, amount, s.window), User(tenant, user), now, amount, s.window)
  }

  // ----- nearness -----------------------------------------------------------------------

  function Threshold(s: Settings, k: CounterKey): real {
    Limit(s, k) as real * s.ratio
  }

  predicate Near(s: Settings, k: CounterKey, total: nat) {
    total as real >= Threshold(s, k)
  }

  /** The warning's own test, on the total before and after one charge. */
  predicate Crosses(threshold: real, before: nat, after: nat) {
    !(before as real >= threshold || (after as real) < threshold)
  }

  // ----- the store methods --------------------------------------------------------------

  method AddWithWindow(redis: Redis<CounterKey>, k: CounterKey, amount: nat, window: nat) returns (total: nat)
    modifies redis`table
    ensures redis.table == Charged(old(redis.table), k, redis.now, amount, window)
    ensures total == Count(old(redis.table), k, redis.now) + amount
  {
    var existed := redis.Exists(k);
    total := redis.IncrBy(k, amount);
    var bare := redis.HasNoExpiry(k);
    if !existed || bare {
      redis.Expire(k, window);
    }
  }

  /** The meter, which fails open: it never denies, and a charge that was not answered may have
      been applied but warns of nothing.  `warned` lists the counters whose crossing it reported. */
  method EnforceTokenCost(redis: Redis<CounterKey>, s: Settings, tenant: nat, user: nat, total: nat, link: Link)
    returns (warned: seq<CounterKey>)
    modifies redis`table
    ensures redis.table == if link.Applied() then Spent(s, old(redis.table), redis.now, tenant, user, total)
                           else old(redis.table)
    ensures forall k :: k in warned <==>
      link.Answers? && Pays(tenant, user, k)
      && Crosses(Threshold(s, k), Count(old(redis.table), k, redis.now), Count(old(redis.table), k, redis.now) + total)
  {
    warned := [];
    if !link.Applied() {
      return;
    }
    var tenantTotal := AddWithWindow(redis, Tenant(tenant), total, s.window);
    var userTotal := AddWithWindow(redis, User(tenant, user), total, s.window);
    if link.Fails? {
      return;
    }
    if Crosses(Threshold(s, Tenant(tenant)), tenantTotal - total, tenantTotal) {
      warned := warned + [Tenant(tenant)];
    }
    if Crosses(Threshold(s, User(tenant, user)), userTotal - total, userTotal) {
      warned := warned + [User(tenant, user)];
    }
  }

  datatype Gate = Refused | Admitted(degraded: bool)

  function Preflight(s: Settings, m: Table<CounterKey>, now: nat, tenant: nat, user: nat): Gate {
    var t, u := Count(m, Tenant(tenant), now), Count(m, User(tenant, user), now);
    if t >= s.tenantLimit || u >= s.userLimit then Refused
    else Admitted(Near(s, Tenant(tenant), t) || Near(s, User(tenant, user), u))
  }

  /** The gate, which only reads and fails open.  `near` lists the counters that a degraded
      answer names. */
  method TokenPreflight(redis: Redis<CounterKey>, s: Settings, tenant: nat, user: nat, link: Link)
    returns (gate: Gate, near: seq<CounterKey>)
    ensures gate == if link.Fails? then Admitted(false) else Preflight(s, redis.table, redis.now, tenant, user)
    ensures forall k :: k in near <==>
      link.Answers? && !gate.Refused? && Pays(tenant, user, k) && Near(s, k, Count(redis.table, k, redis.now))
  {
    near := [];
    if link.Fails? {
      return Admitted(false), near;
    }
    var tenantTotal := redis.Get(Tenant(tenant));
    var userTotal := redis.Get(User(tenant, user));
    if tenantTotal >= s.tenantLimit || userTotal >= s.userLimit {
      return Refused, near;
    }
    if Near(s, Tenant(tenant), tenantTotal) {
      near := near + [Tenant(tenant)];
    }
    if Near(s, User(tenant, user), userTotal) {
      near := near + [User(tenant, user)];
    }
    gate := Admitted(near != []);
  }

  datatype CapError = TenantQuotaExceeded | UserQuotaExceeded

  /** Gate 4 on its own pair of counters: it counts first, then denies, and fails open. */
  method EnforceCost(redis: Redis<CounterKey>, s: Settings, tenant: nat, user: nat, amount: nat, link: Link)
    returns (denied: Option<CapError>)
    modifies redis`table
    ensures redis.table == if link.Applied() then Spent(s, old(redis.table), redis.now, tenant, user, amount)
                           else old(redis.table)
    ensures denied == None <==>
      link.Fails?
      || forall k :: Pays(tenant, user, k) ==> Count(old(redis.table), k, redis.now) + amount <= Limit(s, k)
    ensures denied == Some(TenantQuotaExceeded) <==>
      link.Answers? && Count(old(redis.table), Tenant(tenant), redis.now) + amount > s.tenantLimit
  {
    if !link.Applied() {
      return None;
    }
    var tenantCount := AddWithWindow(redis, Tenant(tenant), amount, s.window);
    var userCount := AddWithWindow(redis, User(tenant, user), amount, s.window);
    if link.Fails? {
      return None;
    }
    assert Pays(tenant, user, Tenant(tenant)) && Pays(tenant, user, User(tenant, user));
    if tenantCount > s.tenantLimit {
      return Some(TenantQuotaExceeded);
    }
    if userCount > s.userLimit {
      return Some(UserQuotaExceeded);
    }
    return None;
  }

  /** How many requests are inside the process. */
  class InflightCounter {
    var count: int

    constructor ()
      ensures count == 0
    {
      count := 0;
    }

    method Acquire(limit: int) returns (admitted: bool)
      modifies this
      ensures admitted == (old(count) < limit)
      ensures count == old(count) + if admitted then 1 else 0
    {
      if count >= limit {
        return false;
      }
      count := count + 1;
      return true;
    }

    method Release()
      modifies this
      ensures count == old(count) - 1
    {
      count := count - 1;
    }
  }

  /** One request at the door.  While the application runs, other requests come and go; `others`
      is their net effect on the count.  The slot goes back however the application ends. */
  method Handle(counter: InflightCounter, limit: int, isHttp: bool, exempt: bool, others: int, raises: bool)
    returns (shed: bool, propagates: bool)
    modifies counter
    ensures shed <==> isHttp && !exempt && old(counter.count) >= limit
    ensures counter.count == old(counter.count) + if shed then 0 else others
    ensures propagates <==> !shed && raises
  {
    if !isHttp || exempt {
      counter.count := counter.count + others;
      return false, raises;
    }
    var admitted := counter.Acquire(limit);
    if !admitted {
      return true, false;
    }
    counter.count := counter.count + others;
    counter.Release();
    return false, raises;
  }

  // ----- interleavings ------------------------------------------------------------------

  /** One model task: it has been answered `calls` times, and is over once an answer is good
      or no reprompt is left. */
  datatype Pass = Pass(calls: nat, over: bool)

  datatype Stage =
    | Entered
    | Classifying(degraded: bool, classify: Pass)
    | Marking(degraded: bool, vague: Pass, score: Pass)
    | Stopped

  datatype Judgement = Judgement(tenant: nat, user: nat, stage: Stage)

  /** `inside` is the requests in flight and `slots` the counter they took their places from. */
  datatype State = State(now: nat, table: Table<CounterKey>, slots: int, inside: seq<Judgement>)

  datatype Task = Classify | Vague | Score

  /** `charged` says whether the charge was applied. */
  datatype Step =
    | Tick(to: nat)
    | Enter(tenant: nat, user: nat)
    | CheckBudget(i: nat, reachable: bool)
    | Respond(i: nat, task: Task, tokens: nat, good: bool, charged: bool)
    | StartMarking(i: nat)
    | Stop(i: nat)
    | Leave(i: nat)

  function MaxCalls(degraded: bool): nat { if degraded then 1 else 2 }

  predicate MayCall(degraded: bool, p: Pass) { !p.over && p.calls < MaxCalls(degraded) }

  function Called(degraded: bool, p: Pass, good: bool): Pass {
    Pass(p.calls + 1, good || p.calls + 1 >= MaxCalls(degraded))
  }

  /** What a provider gives back: nothing, or an answer that parses or does not. */
  datatype Answer = NoAnswer | Response(tokens: nat, good: bool)

  datatype ModelResult = Parsed(answer: Answer) | ModelUnavailable | MalformedOutput

  /** The charge for one answer, if it is applied and there is anything to charge. */
  function Billed(s: Settings, m: Table<CounterKey>, now: nat, tenant: nat, user: nat, a: Answer,
                  charge: Link): Table<CounterKey> {
    if a.Response? && a.tokens > 0 && charge.Applied() then Spent(s, m, now, tenant, user, a.tokens) else m
  }

  /** The one place where tokens are charged: every answer, kept or discarded. */
  method CompleteOnce(redis: Redis<CounterKey>, s: Settings, tenant: nat, user: nat, a: Answer, charge: Link)
    returns (answered: bool)
    modifies redis`table
    ensures answered == a.Response?
    ensures redis.table == Billed(s, old(redis.table), redis.now, tenant, user, a, charge)
    ensures s.window > 0 ==> forall k ::
      Count(redis.table, k, redis.now) == Count(old(redis.table), k, redis.now)
        + if a.Response? && charge.Applied() && Pays(tenant, user, k) then a.tokens else 0
  {
    if s.window > 0 {
      forall k {
        EveryAnswerIsCharged(s, redis.table, redis.now, tenant, user, a, charge, k);
      }
    }
    if a.NoAnswer? {
      return false;
    }
    if a.tokens > 0 {
      var _ := EnforceTokenCost(redis, s, tenant, user, a.tokens, charge);
    }
    return true;
  }

  /** One model task: `first` and `second` are what the provider would say, `pause` the time
      between.  A second prompt goes out exactly when the first answer was bad and the judgement
      is not degraded, and both answers are charged. */
  method CallModel(redis: Redis<CounterKey>, s: Settings, tenant: nat, user: nat, reprompt: bool,
                   first: Answer, charge: Link, pause: nat, second: Answer, chargeAgain: Link)
    returns (result: ModelResult, calls: nat)
    modifies redis`table, redis`now
    ensures calls == 2 <==> first.Response? && !first.good && reprompt
    ensures 1 <= calls <= 2
    ensures calls == 1 ==>
      && redis.table == Billed(s, old(redis.table), old(redis.now), tenant, user, first, charge)
      && result == if first.NoAnswer? then ModelUnavailable else if first.good then Parsed(first) else MalformedOutput
    ensures calls == 2 ==>
      && redis.table == Billed(s, Billed(s, old(redis.table), old(redis.now), tenant, user, first, charge),
                               redis.now, tenant, user, second, chargeAgain)
      && result == if second.NoAnswer? then ModelUnavailable else if second.good then Parsed(second) else MalformedOutput
  {
    calls := 1;
    var answered := CompleteOnce(redis, s, tenant, user, first, charge);
    if !answered {
      return ModelUnavailable, calls;
    }
    if first.good {
      return Parsed(first), calls;
    }
    if !reprompt {
      return MalformedOutput, calls;
    }
    redis.now := redis.now + pause;
    calls := 2;
    answered := CompleteOnce(redis, s, tenant, user, second, chargeAgain);
    if !answered {
      return ModelUnavailable, calls;
    }
    return if second.good then Parsed(second) else MalformedOutput, calls;
  }

  predicate Awaits(stage: Stage, task: Task) {
    match task
    case Classify => stage.Classifying? && MayCall(stage.degraded, stage.classify)
    case Vague => stage.Marking? && MayCall(stage.degraded, stage.vague)
    case Score => stage.Marking? && MayCall(stage.degraded, stage.score)
  }

  function AfterCall(stage: Stage, task: Task, good: bool): Stage
    requires Awaits(stage, task)
  {
    match task
    case Classify => stage.(classify := Called(stage.degraded, stage.classify, good))
    case Vague => stage.(vague := Called(stage.degraded, stage.vague, good))
    case Score => stage.(score := Called(stage.degraded, stage.score, good))
  }

  /** `cap` is the most tokens one response may cost. */
  predicate Enabled(s: Settings, cap: nat, st: State, e: Step) {
    match e
    case Tick(to) => st.now <= to
    case Enter(_, _) => st.slots < s.maxInflight
    case CheckBudget(i, _) => i < |st.inside| && st.inside[i].stage.Entered?
    case Respond(i, task, tokens, _, _) => i < |st.inside| && tokens <= cap && Awaits(st.inside[i].stage, task)
    case StartMarking(i) => i < |st.inside| && st.inside[i].stage.Classifying? && st.inside[i].stage.classify.over
    case Stop(i) => i < |st.inside|
    case Leave(i) => i < |st.inside|
  }

  function Staged(st: State, i: nat, stage: Stage): State
    requires i < |st.inside|
  {
    st.(inside := st.inside[i := st.inside[i].(stage := stage)])
  }

  function Apply(s: Settings, cap: nat, st: State, e: Step): State
    requires Enabled(s, cap, st, e)
  {
    match e
    case Tick(to) => st.(now := to)
    case Enter(t, u) => st.(slots := st.slots + 1, inside := st.inside + [Judgement(t, u, Entered)])
    case CheckBudget(i, reachable) =>
      var gate := if reachable then Preflight(s, st.table, st.now, st.inside[i].tenant, st.inside[i].user)
                  else Admitted(false);
      Staged(st, i, if gate.Refused? then Stopped else Classifying(gate.degraded, Pass(0, false)))
    case Respond(i, task, tokens, good, charged) =>
      var j := st.inside[i];
      var table := if charged && tokens > 0 then Spent(s, st.table, st.now, j.tenant, j.user, tokens) else st.table;
      Staged(st, i, AfterCall(j.stage, task, good)).(table := table)
    case StartMarking(i) =>
      Staged(st, i, Marking(st.inside[i].stage.degraded, Pass(0, false), Pass(0, false)))
    case Stop(i) => Staged(st, i, Stopped)
    case Leave(i) => st.(slots := st.slots - 1, inside := st.inside[..i] + st.inside[i + 1..])
  }

  const START := State(0, map[], 0, [])

  /** The state after a run from the empty store. */
  ghost predicate IsRun(s: Settings, cap: nat, trace: seq<State>, steps: seq<Step>) {
    && |trace| == |steps| + 1 && trace[0] == START
    && forall i :: 0 <= i < |steps| ==>
         Enabled(s, cap, trace[i], steps[i]) && trace[i + 1] == Apply(s, cap, trace[i], steps[i])
  }

  // ----- what is charged ------------------------------------------------------------------

  /** Every answer is charged once, in full, to its tenant and its user and to nobody else, whether
      it parses or not; no answer, or a charge that is not applied, moves nothing. */
  lemma {:induction false} EveryAnswerIsCharged(s: Settings, m: Table<CounterKey>, now: nat, tenant: nat, user: nat,
                                        a: Answer, charge: Link, k: CounterKey)
    requires s.window > 0
    ensures var m' := Billed(s, m, now, tenant, user, a, charge);
      && Count(m', k, now) == Count(m, k, now)
           + (if a.Response? && charge.Applied() && Pays(tenant, user, k) then a.tokens else 0)
      && (!Pays(tenant, user, k) || a.NoAnswer? || !charge.Applied() ==>
            (k in m' <==> k in m) && (k in m ==> m'[k] == m[k]))
  {}

  /** After a reprompt both answers are charged, the discarded first one included.  If the first
      charge's window has ended by then the second starts over. */
  lemma {:induction false} BothAnswersAreCharged(s: Settings, m: Table<CounterKey>, now: nat, later: nat,
                                        tenant: nat, user: nat, first: Answer, second: Answer, charge: Link,
                                        chargeAgain: Link, k: CounterKey)
    requires s.window > 0 && now <= later && Pays(tenant, user, k)
    requires first.Response? && second.Response? && charge.Applied() && chargeAgain.Applied()
    ensures var m' := Billed(s, m, now, tenant, user, first, charge);
      Count(Billed(s, m', later, tenant, user, second, chargeAgain), k, later)
      == (if Live(m', k, later) then Count(m, k, now) + first.tokens else 0) + second.tokens
  {
    hide Billed;
    var m' := Billed(s, m, now, tenant, user, first, charge);
    EveryAnswerIsCharged(s, m, now, tenant, user, first, charge, k);
    EveryAnswerIsCharged(s, m', later, tenant, user, second, chargeAgain, k);
    assert Live(m', k, later) ==> Count(m', k, later) == Count(m', k, now);
  }

  /** The machine's response charges what a model call charges. */
  lemma {:induction false} RespondIsBilled(s: Settings, cap: nat, st: State, i: nat, task: Task, tokens: nat, good: bool,
                                        charge: Link)
    requires Enabled(s, cap, st, Respond(i, task, tokens, good, charge.Applied()))
    ensures Apply(s, cap, st, Respond(i, task, tokens, good, charge.Applied())).table
         == Billed(s, st.table, st.now, st.inside[i].tenant, st.inside[i].user, Response(tokens, good), charge)
  {}

  /** The machine's tasks prompt as a model call does: once, and a second time exactly after a bad answer
      to an undegraded judgement; a task is over when it has a good answer or will not prompt again. */
  lemma {:induction false} TasksPromptLikeModelCalls(degraded: bool, good: bool, again: bool)
    ensures var first := Called(degraded, Pass(0, false), good);
      && MayCall(degraded, Pass(0, false))
      && (MayCall(degraded, first) <==> !good && !degraded)
      && (first.over <==> good || degraded)
      && (!first.over ==>
            var second := Called(degraded, first, again); second.over && !MayCall(degraded, second))
  {}

  /** Time passing moves no counter until its window ends, and then empties it. */
  lemma {:induction false} TicksEndWindows(s: Settings, cap: nat, st: State, to: nat, k: CounterKey)
    requires st.now <= to
    ensures var st' := Apply(s, cap, st, Tick(to));
      && st'.now == to && st'.table == st.table
      && (Live(st.table, k, st.now) ==>
            Count(st'.table, k, st'.now)
            == if st.table[k].expiresAt.Some? && st.table[k].expiresAt.value <= to then 0
               else Count(st.table, k, st.now))
  {}
}
