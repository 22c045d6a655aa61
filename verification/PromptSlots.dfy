/** The attempt cap and the two rate limits, checked and taken by one script.

    A run is any sequence of executions of the script, by any requests, about any notes and
    for any subjects: that is every interleaving, since a script is atomic and the other
    commands on these keys only read.  An execution whose reply is lost is in the run like
    any other. */
module PromptSlots {
  import opened Counters
  import opened Options

  datatype Limits = Limits(
    attemptCap: nat, attemptTtl: nat,
    hourly: nat, hourlyWindow: nat,
    daily: nat, dailyWindow: nat)
  {
    /** The tenant's file refuses an empty window; a cap of 0 is allowed. */
    predicate Valid() { attemptTtl > 0 && hourlyWindow > 0 && dailyWindow > 0 }
  }

  datatype Key = Attempts(note: nat) | Hourly(subject: nat) | Daily(subject: nat)

  datatype Verdict = DeniedByAttempt | DeniedByRate | Allowed

  /** `attempts` is the count after the take when there was one, and the stored one when not;
      `rate` is always the hourly count before. */
  datatype Reply = Reply(verdict: Verdict, attempts: nat, rate: nat)

  function Limit(l: Limits, k: Key): nat {
    match k
    case Attempts(_) => l.attemptCap
    case Hourly(_) => l.hourly
    case Daily(_) => l.daily
  }

  function Window(l: Limits, k: Key): nat {
    match k
    case Attempts(_) => l.attemptTtl
    case Hourly(_) => l.hourlyWindow
    case Daily(_) => l.dailyWindow
  }

  predicate Touches(note: nat, subject: nat, k: Key) {
    k == Attempts(note) || k == Hourly(subject) || k == Daily(subject)
  }

  function VerdictOf(l: Limits, m: Table<Key>, now: nat, note: nat, subject: nat): Verdict {
    if Count(m, Attempts(note), now) >= l.attemptCap then DeniedByAttempt
    else if Count(m, Hourly(subject), now) >= l.hourly then DeniedByRate
    else if Count(m, Daily(subject), now) >= l.daily then DeniedByRate
    else Allowed
  }

  /** One INCR and its window: the first take of a key, or a take of a key that has no expiry,
      starts the window.  "First" is read off the count, so a live key at 0 restarts too. */
  function Bumped(m: Table<Key>, k: Key, now: nat, window: nat): Table<Key> {
    var before := Count(m, k, now);
    var running := before > 0 && m[k].expiresAt.Some?;
    m[k := Entry(before + 1, if running then m[k].expiresAt else Some(now + window))]
  }

  function Taken(l: Limits, m: Table<Key>, now: nat, note: nat, subject: nat): Table<Key> {
    var m1 := Bumped(m, Attempts(note), now, l.attemptTtl);
    var m2 := Bumped(m1, Hourly(subject), now, l.hourlyWindow);
    Bumped(m2, Daily(subject), now, l.dailyWindow)
  }

  /** One execution of the script: the table it leaves and the reply. */
  function Take(l: Limits, m: Table<Key>, now: nat, note: nat, subject: nat): (Table<Key>, Reply) {
    var attempts := Count(m, Attempts(note), now);
    var rate := Count(m, Hourly(subject), now);
    match VerdictOf(l, m, now, note, subject)
    case DeniedByAttempt => (m, Reply(DeniedByAttempt, attempts, 0))
    case DeniedByRate => (m, Reply(DeniedByRate, attempts, rate))
    case Allowed => (Taken(l, m, now, note, subject), Reply(Allowed, attempts + 1, rate))
  }

  /** The script, command by command. */
  method TakePromptSlots(redis: Redis<Key>, l: Limits, note: nat, subject: nat) returns (reply: Reply)
    modifies redis`table
    ensures (redis.table, reply) == Take(l, old(redis.table), redis.now, note, subject)
  {
    var a, h, d := Attempts(note), Hourly(subject), Daily(subject);
    var attempts := redis.Get(a);
    if attempts >= l.attemptCap {
      return Reply(DeniedByAttempt, attempts, 0);
    }
    var rate := redis.Get(h);
    if rate >= l.hourly {
      return Reply(DeniedByRate, attempts, rate);
    }
    var rateDay := redis.Get(d);
    if rateDay >= l.daily {
      return Reply(DeniedByRate, attempts, rate);
    }
    var taken := IncrWithWindow(redis, a, l.attemptTtl);
    var _ := IncrWithWindow(redis, h, l.hourlyWindow);
    var _ := IncrWithWindow(redis, d, l.dailyWindow);
    return Reply(Allowed, taken, rate);
  }

  method IncrWithWindow(redis: Redis<Key>, k: Key, window: nat) returns (count: nat)
    modifies redis`table
    ensures redis.table == Bumped(old(redis.table), k, redis.now, window)
    ensures count == Count(old(redis.table), k, redis.now) + 1
  {
    count := redis.IncrBy(k, 1);
    var bare := redis.HasNoExpiry(k);
    if count == 1 || bare {
      redis.Expire(k, window);
    }
  }

  // ----- runs ---------------------------------------------------------------------------

  /** One execution of the script in a run. */
  datatype Ask = Ask(at: nat, note: nat, subject: nat)

  ghost predicate Ordered(asks: seq<Ask>) {
    forall i, j :: 0 <= i <= j < |asks| ==> asks[i].at <= asks[j].at
  }

  /** The table after a run from the empty store. */
  function Ran(l: Limits, asks: seq<Ask>): Table<Key> {
    if asks == [] then map[]
    else
      var ask := asks[|asks| - 1];
      Take(l, Ran(l, asks[..|asks| - 1]), ask.at, ask.note, ask.subject).0
  }

  /** One take of one counter: when, which lifetime of the counter it fell in, and the number
      it was given. */
  datatype Claim = Claim(at: nat, born: int, number: nat)

  function ClaimOf(l: Limits, m: Table<Key>, k: Key, at: nat): Claim
    requires k in m
  {
    Claim(at, (if m[k].expiresAt.Some? then m[k].expiresAt.value else 0) - Window(l, k), m[k].count)
  }

  /** Every take of counter `k` in a run, in order. */
  function Claims(l: Limits, asks: seq<Ask>, k: Key): seq<Claim> {
    if asks == [] then []
    else
      var ask := asks[|asks| - 1];
      var earlier := asks[..|asks| - 1];
      var m := Ran(l, earlier);
      if VerdictOf(l, m, ask.at, ask.note, ask.subject).Allowed? && Touches(ask.note, ask.subject, k)
      then Claims(l, earlier, k) + [ClaimOf(l, Ran(l, asks), k, ask.at)]
      else Claims(l, earlier, k)
  }

  // ----- one execution ------------------------------------------------------------------

  /** A refusal writes nothing, and a take moves the three counters by one and no other key. */
  lemma {:induction false} TakeMovesAllOrNothing(l: Limits, m: Table<Key>, now: nat, note: nat, subject: nat, k: Key)
    requires l.Valid()
    ensures var (m', reply) := Take(l, m, now, note, subject);
      && (!reply.verdict.Allowed? ==> m' == m)
      && (reply.verdict.Allowed? ==>
            Count(m', k, now) == Count(m, k, now) + if Touches(note, subject, k) then 1 else 0)
      && (reply.verdict.Allowed? && !Touches(note, subject, k) ==> (k in m <==> k in m'))
      && (!Touches(note, subject, k) && k in m ==> m'[k] == m[k])
  {}

  /** The script takes exactly when all three counters are below their limits. */
  lemma {:induction false} TakesExactlyBelowAllLimits(l: Limits, m: Table<Key>, now: nat, note: nat, subject: nat)
    ensures Take(l, m, now, note, subject).1.verdict.Allowed? <==>
      (forall k :: Touches(note, subject, k) ==> Count(m, k, now) < Limit(l, k))
  {
    assert Touches(note, subject, Attempts(note));
    assert Touches(note, subject, Hourly(subject));
    assert Touches(note, subject, Daily(subject));
  }

  /** The reply's attempt count is the stored one as the script leaves it, taken or refused; its
      rate is the hourly count the script met, unless the attempt cap refused before it was read. */
  lemma {:induction false} ReplyCounts(l: Limits, m: Table<Key>, now: nat, note: nat, subject: nat)
    requires l.Valid()
    ensures var (m', reply) := Take(l, m, now, note, subject);
      && reply.attempts == Count(m', Attempts(note), now)
      && (reply.verdict == DeniedByAttempt <==> Count(m, Attempts(note), now) >= l.attemptCap)
      && (reply.verdict != DeniedByAttempt ==> reply.rate == Count(m, Hourly(subject), now))
      && (reply.verdict == DeniedByAttempt ==> reply.rate == 0)
  {}

  /** No take extends a running window. */
  lemma {:induction false} RunningWindowsAreKept(l: Limits, m: Table<Key>, now: nat, note: nat, subject: nat, k: Key)
    requires Count(m, k, now) > 0 && m[k].expiresAt.Some?
    ensures k in Take(l, m, now, note, subject).0
    ensures Take(l, m, now, note, subject).0[k].expiresAt == m[k].expiresAt
  {}

  /** A live counter without an expiry, which no run from the empty store leaves, gains one if and
      only if the script takes; at a limit the script returns before it writes. */
  lemma {:induction false} BareCounterIsRepairedExactlyByATake(l: Limits, m: Table<Key>, now: nat, note: nat, subject: nat,
                                        k: Key)
    requires Touches(note, subject, k) && Live(m, k, now) && m[k].expiresAt.None?
    ensures var m' := Take(l, m, now, note, subject).0;
      && k in m'
      && (m'[k].expiresAt.Some? <==> forall c | Touches(note, subject, c) :: Count(m, c, now) < Limit(l, c))
      && (m'[k].expiresAt.Some? ==> m'[k] == Entry(m[k].count + 1, Some(now + Window(l, k))))
      && (m'[k].expiresAt.None? ==> m' == m)
  {
    TakesExactlyBelowAllLimits(l, m, now, note, subject);
    if VerdictOf(l, m, now, note, subject).Allowed? {
      TakenAt(l, m, now, note, subject, k);
    }
  }

  // ----- what every run keeps -----------------------------------------------------------

  ghost predicate Follows(c: Claim, d: Claim, window: nat) {
    && c.at <= d.at
    && if d.born == c.born then d.number == c.number + 1
       else d.number == 1 && d.born >= c.born + window
  }

  /** A log whose lifetimes are `window` long and disjoint, and which numbers the takes of
      each lifetime 1, 2, 3, ... without passing `limit`. */
  ghost predicate Enumerated(log: seq<Claim>, limit: nat, window: nat) {
    && (forall i :: 0 <= i < |log| ==>
          && log[i].born <= log[i].at < log[i].born + window
          && 1 <= log[i].number <= limit)
    && (forall i :: 0 < i < |log| ==> Follows(log[i - 1], log[i], window))
    && (log != [] ==> log[0].number == 1)
  }

  /** The counter in the table is where the last take left it. */
  ghost predicate Agrees(m: Table<Key>, k: Key, log: seq<Claim>, window: nat) {
    if log == [] then k !in m
    else
      var last := log[|log| - 1];
      && last.born + window >= 0
      && k in m && m[k] == Entry(last.number, Some(last.born + window))
  }

  ghost predicate Ledger(l: Limits, m: Table<Key>, k: Key, log: seq<Claim>, now: nat) {
    && Enumerated(log, Limit(l, k), Window(l, k))
    && Agrees(m, k, log, Window(l, k))
    && (log != [] ==> log[|log| - 1].at <= now)
  }

  lemma {:induction false} EveryCounterEnumerates(l: Limits, asks: seq<Ask>, k: Key)
    requires l.Valid() && Ordered(asks)
    ensures asks != [] ==> Ledger(l, Ran(l, asks), k, Claims(l, asks, k), asks[|asks| - 1].at)
    ensures Enumerated(Claims(l, asks, k), Limit(l, k), Window(l, k))
  {
    if asks != [] {
      var n := |asks| - 1;
      EveryCounterEnumerates(l, asks[..n], k);
      if n > 0 {
        assert asks[..n][n - 1].at <= asks[n].at;
      }
      OneMoreAsk(l, Ran(l, asks[..n]), asks[n], k, Claims(l, asks[..n], k));
    }
  }

  lemma {:induction false} OneMoreAsk(l: Limits, m: Table<Key>, ask: Ask, k: Key, log: seq<Claim>)
    requires l.Valid() && Ledger(l, m, k, log, ask.at)
    ensures var (m', reply) := Take(l, m, ask.at, ask.note, ask.subject);
      if reply.verdict.Allowed? && Touches(ask.note, ask.subject, k)
      then k in m' && Ledger(l, m', k, log + [ClaimOf(l, m', k, ask.at)], ask.at)
      else Ledger(l, m', k, log, ask.at)
  {
    var (m', reply) := Take(l, m, ask.at, ask.note, ask.subject);
    if reply.verdict.Allowed? && Touches(ask.note, ask.subject, k) {
      NextClaim(l, m, ask, k, log);
      Appended(log, ClaimOf(l, m', k, ask.at), Limit(l, k), Window(l, k));
    } else {
      TakeMovesAllOrNothing(l, m, ask.at, ask.note, ask.subject, k);
    }
  }

  lemma {:induction false} NextClaim(l: Limits, m: Table<Key>, ask: Ask, k: Key, log: seq<Claim>)
    requires l.Valid() && Touches(ask.note, ask.subject, k)
    requires VerdictOf(l, m, ask.at, ask.note, ask.subject).Allowed?
    requires Ledger(l, m, k, log, ask.at)
    ensures var m' := Taken(l, m, ask.at, ask.note, ask.subject);
      && k in m'
      && var claim := ClaimOf(l, m', k, ask.at);
      && Agrees(m', k, [claim], Window(l, k))
      && claim.at == ask.at
      && claim.born <= claim.at < claim.born + Window(l, k)
      && 1 <= claim.number <= Limit(l, k)
      && if log == [] then claim.number == 1 else Follows(log[|log| - 1], claim, Window(l, k))
  {
    TakesExactlyBelowAllLimits(l, m, ask.at, ask.note, ask.subject);
    TakenAt(l, m, ask.at, ask.note, ask.subject, k);
    assert Count(m, k, ask.at) < Limit(l, k);
    if log != [] {
      var last := log[|log| - 1];
      assert last.born <= last.at <= ask.at && last.number >= 1;
    }
  }

  lemma {:induction false} Appended(log: seq<Claim>, c: Claim, limit: nat, window: nat)
    requires Enumerated(log, limit, window)
    requires c.born <= c.at < c.born + window && 1 <= c.number <= limit
    requires if log == [] then c.number == 1 else Follows(log[|log| - 1], c, window)
    ensures Enumerated(log + [c], limit, window)
  {}

  lemma {:induction false} TakenAt(l: Limits, m: Table<Key>, now: nat, note: nat, subject: nat, k: Key)
    requires Touches(note, subject, k)
    ensures k in Taken(l, m, now, note, subject)
    ensures Taken(l, m, now, note, subject)[k] == Bumped(m, k, now, Window(l, k))[k]
  {}

  // ----- the theorems -------------------------------------------------------------------

  /** From the empty store every counter always carries an expiry. */
  lemma {:induction false} EveryCounterExpires(l: Limits, asks: seq<Ask>, k: Key)
    requires l.Valid() && Ordered(asks)
    ensures k in Ran(l, asks) ==> Ran(l, asks)[k].expiresAt.Some?
  {
    EveryCounterEnumerates(l, asks, k);
  }

  lemma {:induction false} LifetimesAreGapFree(log: seq<Claim>, limit: nat, window: nat, i: nat, j: nat)
    requires Enumerated(log, limit, window) && i <= j < |log|
    ensures log[i].at <= log[j].at
    ensures if log[i].born == log[j].born then log[j].number - log[i].number == j - i
            else log[j].born >= log[i].born + window
  {
    if i < j {
      LifetimesAreGapFree(log, limit, window, i, j - 1);
      assert Follows(log[j - 1], log[j], window);
    }
  }

  /** Over all interleavings, the takes of one counter are numbered without gap or repeat: a
      take is number 1 of a new lifetime, or one more than the take before it; and within a
      lifetime the numbers say how many takes lie between. */
  lemma {:induction false} AttemptNumbersAreAnEnumeration(l: Limits, asks: seq<Ask>, k: Key, i: nat, j: nat)
    requires l.Valid() && Ordered(asks) && i < j < |Claims(l, asks, k)|
    ensures var log := Claims(l, asks, k);
      && log[0].number == 1
      && 1 <= log[i].number <= Limit(l, k)
      && (log[i].born == log[j].born ==> log[j].number - log[i].number == j - i)
      && (log[i].born != log[i + 1].born ==> log[i + 1].number == 1)
  {
    EveryCounterEnumerates(l, asks, k);
    LifetimesAreGapFree(Claims(l, asks, k), Limit(l, k), Window(l, k), i, j);
    assert Follows(Claims(l, asks, k)[i], Claims(l, asks, k)[i + 1], Window(l, k));
  }

  lemma {:induction false} AtMostTwoLifetimes(log: seq<Claim>, limit: nat, window: nat, i: nat, j: nat)
    requires Enumerated(log, limit, window) && i <= j < |log|
    requires log[j].at < log[i].at + window
    ensures j - i + 1 <= 2 * limit
  {
    var m := i;
    while m < j && log[m + 1].born == log[i].born
      invariant i <= m <= j && log[m].born == log[i].born
    {
      m := m + 1;
    }
    LifetimesAreGapFree(log, limit, window, i, m);
    if m < j {
      assert Follows(log[m], log[m + 1], window);
      LifetimesAreGapFree(log, limit, window, m + 1, j);
      assert log[j].born == log[m + 1].born;
    }
  }

  /** The positions of the takes of `k` that fall in the half-open span of one window. */
  ghost function InSpan(log: seq<Claim>, from: nat, window: nat): set<nat> {
    set i: nat | i < |log| && from <= log[i].at < from + window
  }

  /** Any half-open span as long as a counter's window holds at most twice its limit of takes. */
  lemma {:induction false} SlidingWindowBound(l: Limits, asks: seq<Ask>, k: Key, from: nat)
    requires l.Valid() && Ordered(asks)
    ensures |InSpan(Claims(l, asks, k), from, Window(l, k))| <= 2 * Limit(l, k)
  {
    EveryCounterEnumerates(l, asks, k);
    var log := Claims(l, asks, k);
    SpanIsShort(log, Limit(l, k), Window(l, k), from);
  }

  lemma {:induction false} SpanIsShort(log: seq<Claim>, limit: nat, window: nat, from: nat)
    requires Enumerated(log, limit, window)
    ensures |InSpan(log, from, window)| <= 2 * limit
  {
    var i, j := 0, |log|;
    while i < |log| && log[i].at < from
      invariant i <= |log| && forall x :: 0 <= x < i ==> log[x].at < from
    {
      i := i + 1;
    }
    while j > 0 && log[j - 1].at >= from + window
      invariant 0 <= j <= |log| && forall x :: j <= x < |log| ==> log[x].at >= from + window
    {
      j := j - 1;
    }
    if i < j {
      AtMostTwoLifetimes(log, limit, window, i, j - 1);
      IntervalSize(InSpan(log, from, window), i, j - 1);
    } else {
      assert InSpan(log, from, window) == {};
    }
  }

  lemma {:induction false} IntervalSize(s: set<nat>, lo: nat, hi: nat)
    requires lo <= hi && forall x :: x in s ==> lo <= x <= hi
    ensures |s| <= hi - lo + 1
  {
    if lo == hi {
      assert s <= {lo};
      assert s == {} || s == {lo};
    } else {
      IntervalSize(s - {hi}, lo, hi - 1);
    }
  }
}
