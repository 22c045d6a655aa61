/** Any number of requests interleaving over one idempotency store, with a clock, kills,
    cancellations and lost replies.

    Every command is one step.  A request that wins its key, by SET NX or by the take-over,
    is its holder until it confirms or its release lands; paid passes happen only there.  The
    release is shielded, so a request counts as releasing until the DEL lands even when its
    caller was answered before. */
module Reservation {
  import opened Idempotency
  import opened Links
  import opened Options

  datatype Config = Config(inflightTtl: nat, confirmTtl: nat)
  {
    predicate Valid() { inflightTtl > 0 && confirmTtl > 0 }
  }

  datatype Outcome = Judged(j: Judgement) | Replayed(j: Judgement) | Duplicate | StoreUnavailable | Failed

  /** Where a request is between two commands. */
  datatype Phase =
    | Reserving
    | Reading
    | TakingOver(stale: Value)
    | Judging
    | Releasing
    | Answered(outcome: Outcome)
    | Killed

  /** `lease` is when the last write of this request expires. */
  datatype Request = Request(key: Key, lead: nat, phase: Phase, lease: nat)
  {
    predicate Holds() { phase.Judging? || phase.Releasing? }
  }

  datatype State = State(now: nat, store: Store, requests: map<nat, Request>)

  datatype Step =
    | Tick(to: nat)
    | Arrive(id: nat, key: Key, lead: nat)
    | Reserve(id: nat, link: Link)
    | Read(id: nat, link: Link)
    | TakeOver(id: nat, link: Link)
    | Pay(id: nat)
    | Confirm(id: nat, body: string, link: Link, cancelled: bool)
    | Abandon(id: nat)
    | Release(id: nat, link: Link)
    | Kill(id: nat)

  /** The step is one the code can take. */
  predicate Enabled(s: State, e: Step) {
    match e
    case Tick(to) => s.now <= to
    case Arrive(id, _, _) => id !in s.requests
    case Reserve(id, _) => id in s.requests && s.requests[id].phase.Reserving?
    case Read(id, _) => id in s.requests && s.requests[id].phase.Reading?
    case TakeOver(id, _) => id in s.requests && s.requests[id].phase.TakingOver?
    case Pay(id) => id in s.requests && s.requests[id].phase.Judging?
    case Confirm(id, _, _, _) => id in s.requests && s.requests[id].phase.Judging?
    case Abandon(id) => id in s.requests && s.requests[id].phase.Judging?
    case Release(id, _) => id in s.requests && s.requests[id].phase.Releasing?
    case Kill(id) => id in s.requests && !s.requests[id].phase.Answered?
  }

  /** The timing assumption: the clock does not pass the expiry of a live holder's own last
      write, that is, a holder's last command lands in time.  A killed holder is not live. */
  predicate Timely(s: State, e: Step) {
    e.Tick? ==> forall id :: id in s.requests && s.requests[id].Holds() ==> e.to < s.requests[id].lease
  }

  function Moved(s: State, id: nat, phase: Phase): State
    requires id in s.requests
  {
    s.(requests := s.requests[id := s.requests[id].(phase := phase)])
  }

  function Won(s: State, id: nat, lease: nat): State
    requires id in s.requests
  {
    s.(requests := s.requests[id := s.requests[id].(phase := Judging, lease := lease)])
  }

  /** What a request that lost the reservation makes of the value it reads. */
  function OnRead(id: nat, r: Request, stored: Option<Value>): Phase {
    match stored
    case None => Answered(Duplicate)
    case Some(Reserved) => Answered(Duplicate)
    case Some(Unreadable(raw)) => TakingOver(Unreadable(raw))
    case Some(Confirmed(j)) =>
      if j.note == r.key.note && j.lead == r.lead then Answered(Replayed(j.(requestId := id)))
      else Answered(Duplicate)
  }

  function Apply(c: Config, s: State, e: Step): State
    requires Enabled(s, e)
  {
    match e
    case Tick(to) => s.(now := to)
    case Arrive(id, key, lead) =>
      s.(requests := s.requests[id := Request(key, lead, Reserving, 0)])
    case Reserve(id, link) =>
      var k := s.requests[id].key;
      var s' := s.(store := if link.Applied() then SetNx(s.store, k, s.now, c.inflightTtl) else s.store);
      if link.Fails? then Moved(s', id, Answered(StoreUnavailable))
      else if Live(s.store, k, s.now) then Moved(s', id, Reading)
      else Won(s', id, s.now + c.inflightTtl)
    case Read(id, link) =>
      var r := s.requests[id];
      if link.Fails? then Moved(s, id, Answered(StoreUnavailable))
      else Moved(s, id, OnRead(id, r, if Live(s.store, r.key, s.now) then Some(s.store[r.key].value) else None))
    case TakeOver(id, link) =>
      var r := s.requests[id];
      var stale := r.phase.stale;
      var s' := s.(store := if link.Applied() then Swap(s.store, r.key, s.now, stale, c.inflightTtl) else s.store);
      if link.Fails? then Moved(s', id, Answered(StoreUnavailable))
      else if Live(s.store, r.key, s.now) && s.store[r.key].value == stale
      then Won(s', id, s.now + c.inflightTtl)
      else Moved(s', id, Answered(Duplicate))
    case Pay(_) => s
    case Confirm(id, body, link, cancelled) =>
      var r := s.requests[id];
      var j := Judgement(r.key.note, r.lead, body, id);
      var hit := link.Applied() && Live(s.store, r.key, s.now);
      var s' := s.(store := if link.Applied() then SetXx(s.store, r.key, s.now, Confirmed(j), c.confirmTtl) else s.store);
      if cancelled then
        var lease := if hit then s.now + c.confirmTtl else r.lease;
        s'.(requests := s'.requests[id := r.(phase := Releasing, lease := lease)])
      else Moved(s', id, Answered(Judged(j)))
    case Abandon(id) => Moved(s, id, Releasing)
    case Release(id, link) =>
      var k := s.requests[id].key;
      Moved(s.(store := if link.Applied() then s.store - {k} else s.store), id, Answered(Failed))
    case Kill(id) => Moved(s, id, Killed)
  }

  // ----- runs ---------------------------------------------------------------------------

  /** No request yet.  The store may hold anything earlier processes left in it, and a
      reservation among that is at most one in-flight lifetime long. */
  ghost predicate Initial(c: Config, s: State) {
    && s.requests == map[]
    && ReservationsAreShort(c, s)
  }

  ghost predicate ReservationsAreShort(c: Config, s: State) {
    forall k :: k in s.store && s.store[k].value.Reserved? ==> s.store[k].expiresAt <= s.now + c.inflightTtl
  }

  /** `trace` holds the states before, between and after the steps. */
  ghost predicate IsRun(c: Config, trace: seq<State>, steps: seq<Step>) {
    && |trace| == |steps| + 1
    && Initial(c, trace[0])
    && forall i :: 0 <= i < |steps| ==> Goes(c, trace[i], steps[i], trace[i + 1])
  }

  ghost predicate Goes(c: Config, s: State, e: Step, s': State) {
    Enabled(s, e) && Timely(s, e) && s' == Apply(c, s, e)
  }

  /** `trace` goes on from `s`. */
  ghost predicate Continues(c: Config, s: State, trace: seq<State>, steps: seq<Step>) {
    && |trace| == |steps| + 1 && trace[0] == s
    && forall i :: 0 <= i < |steps| ==> Goes(c, trace[i], steps[i], trace[i + 1])
  }

  // ----- what every step keeps ----------------------------------------------------------

  /** A live holder's key is there, and nobody else put it there last. */
  ghost predicate Backed(s: State, id: nat)
    requires id in s.requests
  {
    var r := s.requests[id];
    r.Holds() ==>
      && s.now < r.lease
      && r.key in s.store && s.store[r.key].expiresAt == r.lease
      && (r.phase.Judging? ==> s.store[r.key].value.Reserved?)
      && !s.store[r.key].value.Unreadable?
  }

  ghost predicate Exclusive(s: State) {
    forall a, b | a in s.requests && b in s.requests && s.requests[a].Holds() && s.requests[b].Holds() ::
      s.requests[a].key == s.requests[b].key ==> a == b
  }

  /** What a take-over compares with is never a reservation and never a valid judgement. */
  ghost predicate StaleIsStale(s: State) {
    forall id :: id in s.requests && s.requests[id].phase.TakingOver? ==>
      s.requests[id].phase.stale.Unreadable?
  }

  ghost predicate Invariant(s: State) {
    && (forall id :: id in s.requests ==> Backed(s, id))
    && Exclusive(s)
    && StaleIsStale(s)
  }

  /** Nobody holds `k`. */
  ghost predicate Free(s: State, k: Key) {
    forall id :: id in s.requests && s.requests[id].key == k ==> !s.requests[id].Holds()
  }

  /** A key that is gone, or that holds a value no longer valid, has no holder. */
  lemma {:induction false} NoHolderWithoutReservation(s: State, k: Key)
    requires Invariant(s)
    requires !Live(s.store, k, s.now) || s.store[k].value.Unreadable?
    ensures Free(s, k)
  {
    forall id | id in s.requests && s.requests[id].key == k
      ensures !s.requests[id].Holds()
    {
      assert Backed(s, id);
    }
  }

  lemma {:induction false} WinningKeepsInvariant(s: State, id: nat, store: Store, ttl: nat)
    requires Invariant(s) && id in s.requests && ttl > 0
    requires Free(s, s.requests[id].key)
    requires store == s.store[s.requests[id].key := Entry(Reserved, s.now + ttl)]
    ensures Invariant(Won(s.(store := store), id, s.now + ttl))
  {
    var s' := Won(s.(store := store), id, s.now + ttl);
    forall other | other in s'.requests
      ensures Backed(s', other)
    {
      assert Backed(s, other);
    }
  }

  /** Leaving the holder's phases, or moving between phases that do not hold, is harmless. */
  lemma {:induction false} MovingAsideKeepsInvariant(s: State, id: nat, phase: Phase)
    requires Invariant(s) && id in s.requests
    requires !phase.Judging? && !phase.Releasing?
    requires phase.TakingOver? ==> phase.stale.Unreadable?
    ensures Invariant(Moved(s, id, phase))
  {
    var s' := Moved(s, id, phase);
    forall other | other in s'.requests
      ensures Backed(s', other)
    {
      assert Backed(s, other);
    }
  }

  /** A write to a key without a holder disturbs no holder. */
  lemma {:induction false} FreeWriteKeepsInvariant(s: State, k: Key, store: Store)
    requires Invariant(s) && Free(s, k)
    requires forall other :: other != k ==> (other in store <==> other in s.store)
    requires forall other :: other != k && other in store ==> store[other] == s.store[other]
    ensures Invariant(s.(store := store))
  {
    var s' := s.(store := store);
    forall id | id in s'.requests
      ensures Backed(s', id)
    {
      assert Backed(s, id);
    }
  }

  lemma {:induction false} ReserveKeepsInvariant(c: Config, s: State, id: nat, link: Link)
    requires c.Valid() && Invariant(s) && Enabled(s, Reserve(id, link))
    ensures Invariant(Apply(c, s, Reserve(id, link)))
  {
    var k := s.requests[id].key;
    var store := if link.Applied() then SetNx(s.store, k, s.now, c.inflightTtl) else s.store;
    if !Live(s.store, k, s.now) {
      NoHolderWithoutReservation(s, k);
      FreeWriteKeepsInvariant(s, k, store);
    }
    if link.Answers? && !Live(s.store, k, s.now) {
      WinningKeepsInvariant(s, id, store, c.inflightTtl);
    } else {
      var phase := if link.Fails? then Answered(StoreUnavailable) else Reading;
      MovingAsideKeepsInvariant(s.(store := store), id, phase);
    }
  }

  lemma {:induction false} TakeOverKeepsInvariant(c: Config, s: State, id: nat, link: Link)
    requires c.Valid() && Invariant(s) && Enabled(s, TakeOver(id, link))
    ensures Invariant(Apply(c, s, TakeOver(id, link)))
  {
    var k := s.requests[id].key;
    var stale := s.requests[id].phase.stale;
    var store := if link.Applied() then Swap(s.store, k, s.now, stale, c.inflightTtl) else s.store;
    var hit := Live(s.store, k, s.now) && s.store[k].value == stale;
    if hit {
      NoHolderWithoutReservation(s, k);
      FreeWriteKeepsInvariant(s, k, store);
    }
    if link.Answers? && hit {
      WinningKeepsInvariant(s, id, store, c.inflightTtl);
    } else {
      var outcome := if link.Fails? then StoreUnavailable else Duplicate;
      MovingAsideKeepsInvariant(s.(store := store), id, Answered(outcome));
    }
  }

  lemma {:induction false} ConfirmKeepsInvariant(c: Config, s: State, id: nat, body: string, link: Link,
                                        cancelled: bool)
    requires c.Valid() && Invariant(s) && Enabled(s, Confirm(id, body, link, cancelled))
    ensures Invariant(Apply(c, s, Confirm(id, body, link, cancelled)))
  {
    var s' := Apply(c, s, Confirm(id, body, link, cancelled));
    assert Backed(s, id);
    forall other | other in s'.requests
      ensures Backed(s', other)
    {
      assert Backed(s, other);
    }
  }

  lemma {:induction false} ReleaseKeepsInvariant(c: Config, s: State, id: nat, link: Link)
    requires c.Valid() && Invariant(s) && Enabled(s, Release(id, link))
    ensures Invariant(Apply(c, s, Release(id, link)))
  {
    var s' := Apply(c, s, Release(id, link));
    forall other | other in s'.requests
      ensures Backed(s', other)
    {
      assert Backed(s, other);
    }
  }

  lemma {:induction false} StepKeepsInvariant(c: Config, s: State, e: Step)
    requires c.Valid() && Invariant(s) && Enabled(s, e) && Timely(s, e)
    ensures Invariant(Apply(c, s, e))
  {
    match e
    case Reserve(id, link) => ReserveKeepsInvariant(c, s, id, link);
    case TakeOver(id, link) => TakeOverKeepsInvariant(c, s, id, link);
    case Confirm(id, body, link, cancelled) => ConfirmKeepsInvariant(c, s, id, body, link, cancelled);
    case Release(id, link) => ReleaseKeepsInvariant(c, s, id, link);
    case Kill(id) => MovingAsideKeepsInvariant(s, id, Killed);
    case Read(id, link) =>
      MovingAsideKeepsInvariant(s, id, Apply(c, s, e).requests[id].phase);
    case _ =>
      var s' := Apply(c, s, e);
      forall id | id in s'.requests
        ensures Backed(s', id)
      {
        if id in s.requests {
          assert Backed(s, id);
        }
      }
  }

  lemma {:induction false} RunKeepsInvariant(c: Config, trace: seq<State>, steps: seq<Step>, n: nat)
    requires c.Valid() && IsRun(c, trace, steps) && n < |trace|
    ensures Invariant(trace[n])
  {
    if n > 0 {
      RunKeepsInvariant(c, trace, steps, n - 1);
      assert Goes(c, trace[n - 1], steps[n - 1], trace[n]);
      StepKeepsInvariant(c, trace[n - 1], steps[n - 1]);
    }
  }

  // ----- the theorems -------------------------------------------------------------------

  /** At every point of every run, at most one request is between winning a key and its
      confirm or release. */
  lemma {:induction false} MutualExclusion(c: Config, trace: seq<State>, steps: seq<Step>, n: nat, a: nat, b: nat)
    requires c.Valid() && IsRun(c, trace, steps) && n < |trace|
    requires a in trace[n].requests && trace[n].requests[a].Holds()
    requires b in trace[n].requests && trace[n].requests[b].Holds()
    requires trace[n].requests[a].key == trace[n].requests[b].key
    ensures a == b
  {
    RunKeepsInvariant(c, trace, steps, n);
  }

  function Rank(p: Phase): nat {
    match p
    case Reserving => 0
    case Reading => 1
    case TakingOver(_) => 2
    case Judging => 3
    case Releasing => 4
    case Answered(_) => 5
    case Killed => 6
  }

  /** A request keeps its key and never goes back. */
  lemma {:induction false} RequestsOnlyAdvance(c: Config, trace: seq<State>, steps: seq<Step>, i: nat, j: nat, id: nat)
    requires IsRun(c, trace, steps) && i <= j < |trace| && id in trace[i].requests
    ensures id in trace[j].requests
    ensures trace[j].requests[id].key == trace[i].requests[id].key
    ensures Rank(trace[i].requests[id].phase) <= Rank(trace[j].requests[id].phase)
  {
    if i < j {
      RequestsOnlyAdvance(c, trace, steps, i, j - 1, id);
      assert Goes(c, trace[j - 1], steps[j - 1], trace[j]);
    }
  }

  /** The paid passes of two requests for one key never interleave. */
  lemma {:induction false} PaidPassesDoNotInterleave(c: Config, trace: seq<State>, steps: seq<Step>,
                                  i: nat, j: nat, k: nat, a: nat, b: nat)
    requires c.Valid() && IsRun(c, trace, steps) && i < j < k < |steps|
    requires steps[i] == Pay(a) && steps[j] == Pay(b) && steps[k] == Pay(a)
    requires a in trace[i].requests && b in trace[j].requests
    requires trace[i].requests[a].key == trace[j].requests[b].key
    ensures a == b
  {
    assert Goes(c, trace[i], steps[i], trace[i + 1]);
    assert Goes(c, trace[j], steps[j], trace[j + 1]);
    assert Goes(c, trace[k], steps[k], trace[k + 1]);
    RequestsOnlyAdvance(c, trace, steps, i, j, a);
    RequestsOnlyAdvance(c, trace, steps, j, k, a);
    MutualExclusion(c, trace, steps, j, a, b);
  }

  /** No step starts a judgement on a key that holds a live reservation or a live judgement
      that validates. */
  lemma {:induction false} LiveKeyIsNotWon(c: Config, trace: seq<State>, steps: seq<Step>, n: nat, id: nat)
    requires c.Valid() && IsRun(c, trace, steps) && n < |steps|
    requires id in trace[n].requests && !trace[n].requests[id].phase.Judging?
    requires Live(trace[n].store, trace[n].requests[id].key, trace[n].now)
    requires !trace[n].store[trace[n].requests[id].key].value.Unreadable?
    ensures id in trace[n + 1].requests && !trace[n + 1].requests[id].phase.Judging?
  {
    RunKeepsInvariant(c, trace, steps, n);
    assert Goes(c, trace[n], steps[n], trace[n + 1]);
  }

  /** A confirm never creates a key, and touches no key but its own. */
  lemma {:induction false} ConfirmCreatesNothing(c: Config, s: State, e: Step, k: Key)
    requires e.Confirm? && Enabled(s, e)
    ensures !Live(s.store, k, s.now) ==> !Live(Apply(c, s, e).store, k, s.now)
    ensures k != s.requests[e.id].key ==>
      (k in s.store <==> k in Apply(c, s, e).store) && (k in s.store ==> Apply(c, s, e).store[k] == s.store[k])
  {}

  // ----- replays ------------------------------------------------------------------------

  /** Step `i` of the run is a request confirming `j` under `k`. */
  ghost predicate ConfirmedAt(c: Config, trace: seq<State>, steps: seq<Step>, i: nat, k: Key, j: Judgement)
    requires IsRun(c, trace, steps) && i < |steps|
  {
    && steps[i].Confirm? && steps[i].link.Applied()
    && steps[i].id in trace[i].requests
    && var r := trace[i].requests[steps[i].id];
    && r.phase.Judging? && r.key == k
    && j == Judgement(k.note, r.lead, steps[i].body, steps[i].id)
  }

  lemma {:induction false} StoredWasConfirmed(c: Config, trace: seq<State>, steps: seq<Step>, n: nat, k: Key)
    requires IsRun(c, trace, steps) && n < |trace|
    requires k in trace[n].store && trace[n].store[k].value.Confirmed?
    ensures var v := trace[n].store[k].value;
      || (k in trace[0].store && trace[0].store[k].value == v)
      || exists i: nat :: i < n && ConfirmedAt(c, trace, steps, i, k, v.judgement)
  {
    if n > 0 {
      var s, e := trace[n - 1], steps[n - 1];
      assert Goes(c, s, e, trace[n]);
      if k in s.store && s.store[k] == trace[n].store[k] {
        StoredWasConfirmed(c, trace, steps, n - 1, k);
      } else {
        assert ConfirmedAt(c, trace, steps, n - 1, k, trace[n].store[k].value.judgement);
      }
    }
  }

  /** A replayed answer is, but for the request id, a judgement that an earlier request
      confirmed under the same key, for the same note and lead. */
  lemma {:induction false} ReplaysAreFaithful(c: Config, trace: seq<State>, steps: seq<Step>, n: nat, id: nat,
                                        answer: Judgement)
    requires IsRun(c, trace, steps) && n < |steps|
    requires steps[n].Read? && steps[n].id == id
    requires id in trace[n + 1].requests
    requires trace[n + 1].requests[id].phase == Answered(Replayed(answer))
    ensures answer.requestId == id
    ensures id in trace[n].requests
    ensures var r := trace[n].requests[id];
      && answer.note == r.key.note && answer.lead == r.lead
      && exists original: Judgement :: answer == original.(requestId := id)
           && ((r.key in trace[0].store && trace[0].store[r.key].value == Confirmed(original))
               || exists i: nat :: i < n && ConfirmedAt(c, trace, steps, i, r.key, original))
  {
    assert Goes(c, trace[n], steps[n], trace[n + 1]);
    var k := trace[n].requests[id].key;
    StoredWasConfirmed(c, trace, steps, n, k);
    assert answer == trace[n].store[k].value.judgement.(requestId := id);
  }

  // ----- a confirmed judgement is replayed ------------------------------------------------

  /** `k` holds the judgement that request `writer` confirmed, until `end`, and nobody holds `k` but
      the writer itself on its way to a release. */
  ghost predicate Settled(s: State, k: Key, j: Judgement, end: nat, writer: nat) {
    && s.now < end
    && k in s.store && s.store[k] == Entry(Confirmed(j), end)
    && forall id :: id in s.requests && s.requests[id].key == k && s.requests[id].Holds() ==>
         id == writer && s.requests[id].phase.Releasing?
  }

  /** The writer was cancelled after its confirm, and its release lands. */
  predicate Undoes(e: Step, writer: nat) { e.Release? && e.id == writer && e.link.Applied() }

  lemma {:induction false} ConfirmSettles(c: Config, s: State, e: Step)
    requires c.Valid() && Invariant(s) && e.Confirm? && e.link.Applied() && Enabled(s, e)
    ensures var r := s.requests[e.id];
      Settled(Apply(c, s, e), r.key, Judgement(r.key.note, r.lead, e.body, e.id), s.now + c.confirmTtl, e.id)
  {
    assert Backed(s, e.id);
  }

  lemma {:induction false} StepKeepsSettled(c: Config, s: State, e: Step, k: Key, j: Judgement, end: nat, writer: nat)
    requires Invariant(s) && Enabled(s, e) && Settled(s, k, j, end, writer) && writer in s.requests
    requires !Undoes(e, writer) && Apply(c, s, e).now < end
    ensures Settled(Apply(c, s, e), k, j, end, writer)
  {
    hide Backed, Exclusive;
    assert StaleIsStale(s);
  }

  lemma {:induction false} TimeAdvances(c: Config, s: State, e: Step)
    requires Enabled(s, e)
    ensures s.now <= Apply(c, s, e).now
  {}

  /** A confirmed judgement stays for its whole lifetime, which is the long one, unless its own
      request was cancelled after confirming and its release lands. */
  lemma {:induction false} ConfirmedStays(c: Config, trace: seq<State>, steps: seq<Step>, i: nat, n: nat,
                                        k: Key, j: Judgement)
    requires c.Valid() && IsRun(c, trace, steps) && i < |steps| && i < n < |trace|
    requires ConfirmedAt(c, trace, steps, i, k, j)
    requires trace[n].now < trace[i].now + c.confirmTtl
    requires forall x :: i < x < n ==> !Undoes(steps[x], j.requestId)
    ensures Settled(trace[n], k, j, trace[i].now + c.confirmTtl, j.requestId)
  {
    hide Apply, Settled, Invariant, Initial, Undoes;
    assert Goes(c, trace[n - 1], steps[n - 1], trace[n]);
    RunKeepsInvariant(c, trace, steps, n - 1);
    if n == i + 1 {
      ConfirmSettles(c, trace[i], steps[i]);
    } else {
      TimeAdvances(c, trace[n - 1], steps[n - 1]);
      ConfirmedStays(c, trace, steps, i, n - 1, k, j);
      RequestsOnlyAdvance(c, trace, steps, i, n - 1, j.requestId);
      StepKeepsSettled(c, trace[n - 1], steps[n - 1], k, j, trace[i].now + c.confirmTtl, j.requestId);
    }
  }

  /** A request that was not cancelled when it confirmed has been answered, and undoes nothing. */
  lemma {:induction false} AnsweredUndoesNothing(c: Config, trace: seq<State>, steps: seq<Step>, i: nat, x: nat,
                                        k: Key, j: Judgement)
    requires IsRun(c, trace, steps) && i < x < |steps|
    requires ConfirmedAt(c, trace, steps, i, k, j) && !steps[i].cancelled
    ensures !Undoes(steps[x], j.requestId)
  {
    assert Goes(c, trace[i], steps[i], trace[i + 1]);
    assert Goes(c, trace[x], steps[x], trace[x + 1]);
    RequestsOnlyAdvance(c, trace, steps, i + 1, x, j.requestId);
  }

  /** What the two commands of a request on `k` come to at step `n`, while the judgement `j` stays:
      the key is not won, and a read replays the judgement to the same lead. */
  ghost predicate Replays(trace: seq<State>, steps: seq<Step>, n: nat, k: Key, j: Judgement)
    requires n < |steps| && |trace| == |steps| + 1
  {
    var s, e, s' := trace[n], steps[n], trace[n + 1];
    && (forall id :: id in s.requests && s.requests[id].key == k ==> !s.requests[id].phase.Judging?)
    && (e.Reserve? && e.link.Answers? && e.id in s.requests && s.requests[e.id].key == k ==>
          e.id in s'.requests && s'.requests[e.id].phase == Reading)
    && (e.Read? && e.link.Answers? && e.id in s.requests && s.requests[e.id].key == k ==>
          && e.id in s'.requests
          && s'.requests[e.id].phase == Answered(
               if s.requests[e.id].lead == j.lead then Replayed(j.(requestId := e.id)) else Duplicate))
  }

  /** For the whole long lifetime after a confirm that was not cancelled, nobody judges the note
      again, and every answered retry for the same lead gets that judgement. */
  lemma {:induction false} ConfirmedIsReplayed(c: Config, trace: seq<State>, steps: seq<Step>, i: nat, n: nat,
                                        k: Key, j: Judgement)
    requires c.Valid() && IsRun(c, trace, steps) && i < n < |steps|
    requires ConfirmedAt(c, trace, steps, i, k, j) && !steps[i].cancelled
    requires trace[n].now < trace[i].now + c.confirmTtl
    ensures k in trace[n].store && trace[n].store[k] == Entry(Confirmed(j), trace[i].now + c.confirmTtl)
    ensures Replays(trace, steps, n, k, j)
  {
    forall x | i < x < n
      ensures !Undoes(steps[x], j.requestId)
    {
      AnsweredUndoesNothing(c, trace, steps, i, x, k, j);
    }
    ConfirmedStays(c, trace, steps, i, n, k, j);
    assert Goes(c, trace[n], steps[n], trace[n + 1]);
  }

  lemma {:induction false} GoesNowhere(c: Config, s: State)
    ensures Continues(c, s, [s], [])
  {}

  lemma {:induction false} GoesOn(c: Config, s: State, trace: seq<State>, steps: seq<Step>, e: Step)
    returns (trace': seq<State>, steps': seq<Step>)
    requires Continues(c, s, trace, steps) && Enabled(trace[|steps|], e) && Timely(trace[|steps|], e)
    ensures Continues(c, s, trace', steps') && steps' == steps + [e]
    ensures trace' == trace + [Apply(c, trace[|steps|], e)]
  {
    hide Apply, Enabled, Timely;
    trace', steps' := trace + [Apply(c, trace[|steps|], e)], steps + [e];
  }

  /** A retry, step by step: from any state in which the judgement stays, a new request for the key
      is sent to read and gets it. */
  lemma {:induction false} RetryIsReplayed(c: Config, s: State, k: Key, j: Judgement, end: nat, writer: nat, id: nat)
    returns (trace: seq<State>, steps: seq<Step>)
    requires Settled(s, k, j, end, writer) && id !in s.requests
    ensures steps == [Arrive(id, k, j.lead), Reserve(id, Link.Answers), Read(id, Link.Answers)]
    ensures Continues(c, s, trace, steps)
    ensures j.note == k.note ==>
      trace[3] == s.(requests := s.requests[id := Request(k, j.lead, Answered(Replayed(j.(requestId := id))), 0)])
  {
    steps := [Arrive(id, k, j.lead), Reserve(id, Link.Answers), Read(id, Link.Answers)];
    var arrived := Apply(c, s, steps[0]);
    var reading := Apply(c, arrived, steps[1]);
    trace := [s, arrived, reading, Apply(c, reading, steps[2])];
  }

  /** And for a key whose value no longer validates: the new request takes it over, and may be
      killed while it judges. */
  lemma {:induction false} RetryTakesOver(c: Config, s: State, k: Key, raw: string, id: nat, lead: nat)
    returns (trace: seq<State>, steps: seq<Step>)
    requires Live(s.store, k, s.now) && s.store[k].value == Unreadable(raw) && id !in s.requests
    ensures steps == [Arrive(id, k, lead), Reserve(id, Link.Answers), Read(id, Link.Answers),
                      TakeOver(id, Link.Answers), Kill(id)]
    ensures Continues(c, s, trace, steps)
    ensures trace[4].requests == s.requests[id := Request(k, lead, Judging, s.now + c.inflightTtl)]
    ensures trace[4].store == s.store[k := Entry(Reserved, s.now + c.inflightTtl)]
  {
    hide Continues;
    trace, steps := [s], [];
    assert Continues(c, s, trace, steps) by { GoesNowhere(c, s); }
    trace, steps := GoesOn(c, s, trace, steps, Arrive(id, k, lead));
    trace, steps := GoesOn(c, s, trace, steps, Reserve(id, Link.Answers));
    trace, steps := GoesOn(c, s, trace, steps, Read(id, Link.Answers));
    trace, steps := GoesOn(c, s, trace, steps, TakeOver(id, Link.Answers));
    trace, steps := GoesOn(c, s, trace, steps, Kill(id));
  }

  /** Once that lifetime is over and nobody has written the key, the next request to ask judges
      the note. */
  lemma {:induction false} ReplaysEnd(c: Config, trace: seq<State>, steps: seq<Step>, i: nat, n: nat,
                                        k: Key, j: Judgement, id: nat)
    requires c.Valid() && IsRun(c, trace, steps) && i < n < |steps|
    requires ConfirmedAt(c, trace, steps, i, k, j)
    requires trace[n].now >= trace[i].now + c.confirmTtl
    requires k in trace[n].store && k in trace[i + 1].store && trace[n].store[k] == trace[i + 1].store[k]
    requires steps[n] == Reserve(id, Link.Answers) && id in trace[n].requests && trace[n].requests[id].key == k
    ensures id in trace[n + 1].requests && trace[n + 1].requests[id].phase.Judging?
  {
    RunKeepsInvariant(c, trace, steps, i);
    ConfirmSettles(c, trace[i], steps[i]);
    assert Goes(c, trace[i], steps[i], trace[i + 1]);
    assert Goes(c, trace[n], steps[n], trace[n + 1]);
  }

  /** Request `id` wins its key at step `i`. */
  ghost predicate WinsAt(c: Config, trace: seq<State>, steps: seq<Step>, i: nat, id: nat)
    requires IsRun(c, trace, steps) && i < |steps|
  {
    && id in trace[i].requests && !trace[i].requests[id].phase.Judging?
    && id in trace[i + 1].requests && trace[i + 1].requests[id].phase.Judging?
  }

  /** A request past its reservation that judges after a step judged before it, on the same lease. */
  lemma {:induction false} JudgingIsNotLeft(c: Config, s: State, e: Step, id: nat)
    requires Enabled(s, e) && id in s.requests && Rank(s.requests[id].phase) >= Rank(Judging)
    requires id in Apply(c, s, e).requests && Apply(c, s, e).requests[id].phase.Judging?
    ensures s.requests[id].phase.Judging? && Apply(c, s, e).requests[id].lease == s.requests[id].lease
  {}

  lemma {:induction false} LeaseIsKept(c: Config, trace: seq<State>, steps: seq<Step>, i: nat, n: nat, id: nat)
    requires IsRun(c, trace, steps) && i < |steps| && i < n < |trace|
    requires WinsAt(c, trace, steps, i, id)
    requires id in trace[n].requests && trace[n].requests[id].phase.Judging?
    ensures trace[n].requests[id].lease == trace[i].now + c.inflightTtl
  {
    assert Goes(c, trace[n - 1], steps[n - 1], trace[n]);
    if n > i + 1 {
      RequestsOnlyAdvance(c, trace, steps, i + 1, n - 1, id);
      JudgingIsNotLeft(c, trace[n - 1], steps[n - 1], id);
      LeaseIsKept(c, trace, steps, i, n - 1, id);
    }
  }

  /** For as long as the winner judges, its reservation stands with the expiry it was given when it
      won; another request that asks then is sent to read, and reads that it is a duplicate. */
  lemma {:induction false} ReservedKeyIsADuplicate(c: Config, trace: seq<State>, steps: seq<Step>, i: nat, n: nat,
                                        id: nat, k: Key)
    requires c.Valid() && IsRun(c, trace, steps) && i < n < |steps|
    requires WinsAt(c, trace, steps, i, id) && trace[i].requests[id].key == k
    requires id in trace[n].requests && trace[n].requests[id].phase.Judging?
    ensures k in trace[n].store && trace[n].store[k] == Entry(Reserved, trace[i].now + c.inflightTtl)
    ensures var s, e, s' := trace[n], steps[n], trace[n + 1];
      && (e.Reserve? && e.link.Answers? && e.id in s.requests && s.requests[e.id].key == k ==>
            e.id in s'.requests && s'.requests[e.id].phase == Reading)
      && (e.Read? && e.link.Answers? && e.id in s.requests && s.requests[e.id].key == k ==>
            e.id in s'.requests && s'.requests[e.id].phase == Answered(Duplicate))
  {
    RequestsOnlyAdvance(c, trace, steps, i, n, id);
    LeaseIsKept(c, trace, steps, i, n, id);
    RunKeepsInvariant(c, trace, steps, n);
    assert Backed(trace[n], id);
    assert Goes(c, trace[n], steps[n], trace[n + 1]);
  }

  // ----- how requests end -----------------------------------------------------------------

  lemma {:induction false} AnsweredIsFinal(c: Config, trace: seq<State>, steps: seq<Step>, i: nat, n: nat, id: nat)
    requires IsRun(c, trace, steps) && i <= n < |trace|
    requires id in trace[i].requests && trace[i].requests[id].phase.Answered?
    ensures id in trace[n].requests && trace[n].requests[id].phase == trace[i].requests[id].phase
  {
    if i < n {
      AnsweredIsFinal(c, trace, steps, i, n - 1, id);
      assert Goes(c, trace[n - 1], steps[n - 1], trace[n]);
    }
  }

  /** Before anything is paid an outage fails closed: a request whose reserve, read or take-over is
      not answered is told so, and is never judged. */
  lemma {:induction false} OutagesFailClosed(c: Config, trace: seq<State>, steps: seq<Step>, i: nat, n: nat)
    requires IsRun(c, trace, steps) && i < |steps| && i < n < |trace|
    requires (steps[i].Reserve? || steps[i].Read? || steps[i].TakeOver?) && steps[i].link.Fails?
    ensures steps[i].id in trace[n].requests
    ensures trace[n].requests[steps[i].id].phase == Answered(StoreUnavailable)
  {
    assert Goes(c, trace[i], steps[i], trace[i + 1]);
    AnsweredIsFinal(c, trace, steps, i + 1, n, steps[i].id);
  }

  /** Once it is paid for, a judgement is answered whatever the store does with the confirm. */
  lemma {:induction false} PaidForIsAnswered(c: Config, trace: seq<State>, steps: seq<Step>, i: nat, n: nat)
    requires IsRun(c, trace, steps) && i < |steps| && i < n < |trace|
    requires steps[i].Confirm? && !steps[i].cancelled
    ensures var id := steps[i].id;
      && id in trace[i].requests && id in trace[n].requests
      && var r := trace[i].requests[id];
         trace[n].requests[id].phase == Answered(Judged(Judgement(r.key.note, r.lead, steps[i].body, id)))
  {
    assert Goes(c, trace[i], steps[i], trace[i + 1]);
    AnsweredIsFinal(c, trace, steps, i + 1, n, steps[i].id);
  }

  /** A stored value that no longer validates does not block its key: the request that reads it and
      finds it unchanged takes the key over, for a full reservation. */
  lemma {:induction false} UnreadableIsTakenOver(c: Config, trace: seq<State>, steps: seq<Step>, n: nat, id: nat, raw: string)
    requires IsRun(c, trace, steps) && n + 1 < |steps|
    requires steps[n] == Read(id, Link.Answers) && steps[n + 1] == TakeOver(id, Link.Answers)
    requires id in trace[n].requests && Live(trace[n].store, trace[n].requests[id].key, trace[n].now)
    requires trace[n].store[trace[n].requests[id].key].value == Unreadable(raw)
    ensures var k := trace[n].requests[id].key; var end := trace[n + 2];
      && id in end.requests && end.requests[id].phase.Judging?
      && k in end.store && end.store[k] == Entry(Reserved, end.now + c.inflightTtl)
  {
    assert Goes(c, trace[n], steps[n], trace[n + 1]);
    assert Goes(c, trace[n + 1], steps[n + 1], trace[n + 2]);
  }

  /** A judgement that ends without a confirm does not block its key either: the request that asks
      after its release judges the note. */
  lemma {:induction false} ReleaseFreesTheKey(c: Config, trace: seq<State>, steps: seq<Step>, n: nat, id: nat, link: Link, next: nat)
    requires IsRun(c, trace, steps) && n + 1 < |steps|
    requires steps[n] == Release(id, link) && link.Applied() && steps[n + 1] == Reserve(next, Link.Answers)
    requires id in trace[n].requests && next in trace[n].requests
    requires trace[n].requests[id].key == trace[n].requests[next].key
    ensures trace[n + 1].requests[id].phase == Answered(Failed)
    ensures next in trace[n + 2].requests && trace[n + 2].requests[next].phase.Judging?
  {
    assert Goes(c, trace[n], steps[n], trace[n + 1]);
    assert Goes(c, trace[n + 1], steps[n + 1], trace[n + 2]);
  }

  /** A request cancelled at its confirm is not answered with its judgement but releases, and once its
      release has landed the store does not have the judgement either. */
  lemma {:induction false} CancelledConfirmIsUndone(c: Config, trace: seq<State>, steps: seq<Step>, n: nat, link: Link)
    requires IsRun(c, trace, steps) && n < |steps| && steps[n].Confirm? && steps[n].cancelled
    ensures var id := steps[n].id;
      && id in trace[n].requests && id in trace[n + 1].requests && trace[n + 1].requests[id].phase == Releasing
      && (n + 1 < |steps| && steps[n + 1] == Release(id, link) ==>
            && id in trace[n + 2].requests && trace[n + 2].requests[id].phase == Answered(Failed)
            && (link.Applied() ==> trace[n].requests[id].key !in trace[n + 2].store))
  {
    assert Goes(c, trace[n], steps[n], trace[n + 1]);
    if n + 1 < |steps| {
      assert Goes(c, trace[n + 1], steps[n + 1], trace[n + 2]);
    }
  }

  /** The same command with another reply. */
  function Linked(e: Step, link: Link): Step {
    match e
    case Reserve(id, _) => Reserve(id, link)
    case Read(id, _) => Read(id, link)
    case TakeOver(id, _) => TakeOver(id, link)
    case Confirm(id, body, _, cancelled) => Confirm(id, body, link, cancelled)
    case Release(id, _) => Release(id, link)
    case _ => e
  }

  /** A command whose reply is lost does to the store what the answered one does, and one that never
      got there does nothing. */
  lemma {:induction false} RepliesDoNotMoveTheStore(c: Config, s: State, e: Step)
    requires Enabled(s, e)
    ensures Enabled(s, Linked(e, Fails(true))) && Enabled(s, Linked(e, Fails(false))) && Enabled(s, Linked(e, Link.Answers))
    ensures Apply(c, s, Linked(e, Fails(true))).store == Apply(c, s, Linked(e, Link.Answers)).store
    ensures Apply(c, s, Linked(e, Fails(false))).store == s.store
  {}

  // ----- the lock is bounded ------------------------------------------------------------

  lemma {:induction false} ReservationsStayShort(c: Config, trace: seq<State>, steps: seq<Step>, n: nat)
    requires IsRun(c, trace, steps) && n < |trace|
    ensures ReservationsAreShort(c, trace[n])
  {
    if n > 0 {
      ReservationsStayShort(c, trace, steps, n - 1);
      assert Goes(c, trace[n - 1], steps[n - 1], trace[n]);
    }
  }

  /** A reservation nobody touches again, whether its worker was killed or its reply was lost,
      is gone one in-flight lifetime later, and the next request to ask wins the key. */
  lemma {:induction false} OrphanFreesItself(c: Config, trace: seq<State>, steps: seq<Step>, n: nat, m: nat,
                                        k: Key, id: nat)
    requires IsRun(c, trace, steps) && n <= m < |steps|
    requires k in trace[n].store && trace[n].store[k].value.Reserved?
    requires k in trace[m].store && trace[m].store[k] == trace[n].store[k]
    requires trace[m].now >= trace[n].now + c.inflightTtl
    requires steps[m] == Reserve(id, Link.Answers)
    requires id in trace[m].requests && trace[m].requests[id].key == k
    ensures id in trace[m + 1].requests && trace[m + 1].requests[id].phase.Judging?
  {
    ReservationsStayShort(c, trace, steps, n);
    assert Goes(c, trace[m], steps[m], trace[m + 1]);
  }

  // ----- why the timing assumption is needed ---------------------------------------------

  /** However it goes on from `s`, two holders of one key are one. */
  ghost predicate StaysExclusive(c: Config, s: State) {
    forall trace, steps, n: nat | Continues(c, s, trace, steps) && n < |trace| :: Exclusive(trace[n])
  }

  lemma {:induction false} ContinuationKeepsInvariant(c: Config, s: State, trace: seq<State>, steps: seq<Step>, n: nat)
    requires c.Valid() && Invariant(s) && Continues(c, s, trace, steps) && n < |trace|
    ensures Invariant(trace[n])
  {
    if n > 0 {
      ContinuationKeepsInvariant(c, s, trace, steps, n - 1);
      assert Goes(c, trace[n - 1], steps[n - 1], trace[n]);
      StepKeepsInvariant(c, trace[n - 1], steps[n - 1]);
    }
  }

  lemma {:induction false} SomeIdIsFree(ids: set<nat>) returns (id: nat)
    ensures forall x | x in ids :: x < id
    decreases |ids|
  {
    if ids == {} {
      id := 0;
    } else {
      var x :| x in ids;
      var below := SomeIdIsFree(ids - {x});
      id := if x < below then below else x + 1;
      assert forall y | y in ids :: y == x || y in ids - {x};
    }
  }

  /** Once the clock has passed a holder's lease, the next two steps of somebody else win the
      same key. */
  lemma {:induction false} LateClockBreaksExclusion(c: Config, s: State, to: nat, id: nat)
    requires c.Valid() && Invariant(s) && s.now <= to
    requires id in s.requests && s.requests[id].Holds() && to >= s.requests[id].lease
    ensures !StaysExclusive(c, Apply(c, s, Tick(to)))
  {
    var r := s.requests[id];
    assert Backed(s, id);
    var other := SomeIdIsFree(s.requests.Keys);
    var late := Apply(c, s, Tick(to));
    var arrived := Apply(c, late, Arrive(other, r.key, r.lead));
    var won := Apply(c, arrived, Reserve(other, Link.Answers));
    var trace, steps := [late, arrived, won], [Arrive(other, r.key, r.lead), Reserve(other, Link.Answers)];
    assert Goes(c, trace[0], steps[0], trace[1]) && Goes(c, trace[1], steps[1], trace[2]);
    assert Continues(c, late, trace, steps);
    assert won.requests[id].Holds() && won.requests[other].Holds() && id != other;
    assert !Exclusive(trace[2]);
  }

  /** The assumption is exactly what exclusion needs: from every state that a run can be in, a
      clock step keeps holders exclusive in every continuation if and only if it passes nobody's
      lease. */
  lemma {:induction false} ClockStepIsSafeExactlyWhenTimely(c: Config, s: State, to: nat)
    requires c.Valid() && Invariant(s) && s.now <= to
    ensures StaysExclusive(c, Apply(c, s, Tick(to))) <==> Timely(s, Tick(to))
  {
    if Timely(s, Tick(to)) {
      var late := Apply(c, s, Tick(to));
      StepKeepsInvariant(c, s, Tick(to));
      forall trace, steps, n: nat | Continues(c, late, trace, steps) && n < |trace|
        ensures Exclusive(trace[n])
      {
        ContinuationKeepsInvariant(c, late, trace, steps, n);
      }
    } else {
      var id :| id in s.requests && s.requests[id].Holds() && to >= s.requests[id].lease;
      LateClockBreaksExclusion(c, s, to, id);
    }
  }

  /** For instance, since the release is an unowned DEL: one clock step past a holder's lease, and
      its late release removes the next holder's reservation, and two requests whose leases both run
      then judge one note. */
  lemma {:induction false} LateReleaseBreaksExclusion() returns (c: Config, trace: seq<State>, steps: seq<Step>)
    ensures c.Valid() && |trace| == |steps| + 1 && Initial(c, trace[0])
    ensures forall i :: 0 <= i < |steps| ==>
      Enabled(trace[i], steps[i]) && trace[i + 1] == Apply(c, trace[i], steps[i])
    ensures forall i :: 0 <= i < |steps| && i != 2 ==> Timely(trace[i], steps[i])
    ensures var end := trace[|steps|];
      && 1 in end.requests && end.requests[1].phase.Judging? && end.now < end.requests[1].lease
      && 2 in end.requests && end.requests[2].phase.Judging? && end.now < end.requests[2].lease
      && end.requests[1].key == end.requests[2].key
  {
    c := Config(4, 9);
    var k, start := Key("t", 1, "x"), State(0, map[], map[]);
    var inTime, before := WinsInTime(c, start, 0, k);
    var late := Apply(c, inTime[2], Tick(4));
    var after, rest := LosesToALateRelease(c, late, 0, k, 1, 2);
    trace, steps := inTime + after, before + [Tick(4)] + rest;
    forall i | 0 <= i < |steps|
      ensures Enabled(trace[i], steps[i]) && trace[i + 1] == Apply(c, trace[i], steps[i])
      ensures i != 2 ==> Timely(trace[i], steps[i])
    {
      if i < 2 {
        assert Goes(c, inTime[i], before[i], inTime[i + 1]);
      } else if i > 2 {
        assert Goes(c, after[i - 3], rest[i - 3], after[i - 2]);
      }
    }
  }

  lemma {:induction false} WinsInTime(c: Config, s: State, id: nat, k: Key) returns (trace: seq<State>, steps: seq<Step>)
    requires s.requests == map[] && k !in s.store
    ensures Continues(c, s, trace, steps) && |steps| == 2
    ensures trace[2] == State(s.now, s.store[k := Entry(Reserved, s.now + c.inflightTtl)],
                              map[id := Request(k, 7, Judging, s.now + c.inflightTtl)])
  {
    hide Continues;
    trace, steps := [s], [];
    assert Continues(c, s, trace, steps) by { GoesNowhere(c, s); }
    trace, steps := GoesOn(c, s, trace, steps, Arrive(id, k, 7));
    trace, steps := GoesOn(c, s, trace, steps, Reserve(id, Link.Answers));
  }

  /** The clock has passed the lease of `id`: `a` wins the key, the release of `id` lands, and `b` wins
      the key too. */
  lemma {:induction false} LosesToALateRelease(c: Config, s: State, id: nat, k: Key, a: nat, b: nat)
    returns (trace: seq<State>, steps: seq<Step>)
    requires c.Valid() && !Live(s.store, k, s.now) && id != a && id != b && a != b
    requires s.requests.Keys == {id} && s.requests[id].key == k && s.requests[id].phase.Judging?
    ensures Continues(c, s, trace, steps) && |steps| == 6
    ensures var end := trace[6]; var winner := Request(k, 7, Judging, s.now + c.inflightTtl);
      end.now == s.now && a in end.requests && end.requests[a] == winner && b in end.requests && end.requests[b] == winner
  {
    hide Continues;
    trace, steps := [s], [];
    assert Continues(c, s, trace, steps) by { GoesNowhere(c, s); }
    trace, steps := GoesOn(c, s, trace, steps, Arrive(a, k, 7));
    trace, steps := GoesOn(c, s, trace, steps, Reserve(a, Link.Answers));
    trace, steps := GoesOn(c, s, trace, steps, Abandon(id));
    trace, steps := GoesOn(c, s, trace, steps, Release(id, Link.Answers));
    trace, steps := GoesOn(c, s, trace, steps, Arrive(b, k, 7));
    trace, steps := GoesOn(c, s, trace, steps, Reserve(b, Link.Answers));
  }

  // ----- the same steps as one request runs them ------------------------------------------

  /** What a request that lost the reservation gets, when nothing comes between its two
      commands: the phase the protocol would leave it in. */
  method ExistingJudgement(store: IdempotencyStore, id: nat, r: Request, ttl: nat, read: Link, swap: Link)
    returns (phase: Phase)
    modifies store`entries
    ensures read.Fails? ==> phase == Answered(StoreUnavailable) && store.entries == old(store.entries)
    ensures read.Answers? ==>
      var stored := if Live(old(store.entries), r.key, store.now)
                    then Option.Some(old(store.entries)[r.key].value) else Option.None;
      var seen := OnRead(id, r, stored);
      if seen.TakingOver? then
        && store.entries == (if swap.Applied() then Swap(old(store.entries), r.key, store.now, seen.stale, ttl)
                             else old(store.entries))
        && phase == if swap.Answers? then Judging else Answered(StoreUnavailable)
      else phase == seen && store.entries == old(store.entries)
  {
    var stored := store.ReadConfirmed(r.key, read);
    if stored.Unavailable? {
      return Answered(StoreUnavailable);
    }
    match stored.value
    case None => return Answered(Duplicate);
    case Some(value) =>
      if value.Confirmed? {
        var j := value.judgement;
        if j.note != r.key.note || j.lead != r.lead {
          return Answered(Duplicate);
        }
        return Answered(Replayed(j.(requestId := id)));
      }
      var taken := store.TakeOver(r.key, value, ttl, swap);
      match taken
      case Unavailable => return Answered(StoreUnavailable);
      case Success(won) => return if won then Judging else Answered(Duplicate);
  }
}
