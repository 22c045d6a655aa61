/** What the CRM is told about a note, and whether a clarification prompt goes out.

    `Decide` is asked twice around the one store trip: first with the rate window assumed
    open, which picks the trip, and then with what the store said. */
module Decide {
  import opened Counters
  import opened Links
  import opened Options
  import opened PromptSlots

  datatype Action = AcceptSilent | AcceptFlagPrompt | PromptClarification

  datatype Withheld = Resubmission | AttemptCap | RateLimited | NothingToAsk

  datatype Mode = Off | Advisory | Strict

  datatype EnforcementVerdict = Allow | Flag

  datatype Detail = NoteTooShort | SystemEvent | Unclassifiable | NoteTooLong

  datatype Policy = Policy(accept: int, flag: int, limits: Limits, mode: Mode)

  datatype Decision = Decision(
    action: Action,
    promptSent: bool,
    withheld: Option<Withheld>,
    attempt: nat,
    remaining: nat)

  /** What the store trip hands the second decision; both counts are before this request. */
  datatype Usage = Usage(attempts: nat, rateAllowed: bool, rateCount: nat)

  function ActionFor(p: Policy, total: int): Action {
    if total >= p.accept then AcceptSilent
    else if total >= p.flag then AcceptFlagPrompt
    else PromptClarification
  }

  function Enforcement(p: Policy, action: Option<Action>, detail: Option<Detail>): EnforcementVerdict {
    if p.mode.Off? then Allow
    else if action == Some(AcceptFlagPrompt) || action == Some(PromptClarification)
         || detail == Some(NoteTooShort) then Flag
    else Allow
  }

  function WithheldReason(p: Policy, question: Option<string>, u: Usage, resubmission: bool): Option<Withheld> {
    if resubmission then Some(Resubmission)
    else if u.attempts >= p.limits.attemptCap then Some(AttemptCap)
    else if !u.rateAllowed || u.rateCount >= p.limits.hourly then Some(RateLimited)
    else if question.None? then Some(NothingToAsk)
    else None
  }

  function Decide(p: Policy, total: int, question: Option<string>, u: Usage, resubmission: bool): Decision {
    var action := ActionFor(p, total);
    var withheld := if action.AcceptSilent? then None else WithheldReason(p, question, u, resubmission);
    var sent := !action.AcceptSilent? && withheld.None?;
    var attempt := if sent then u.attempts + 1 else u.attempts;
    var left := p.limits.attemptCap - attempt;
    Decision(action, sent, withheld, attempt, if left > 0 then left else 0)
  }

  /** The script's reply as `Decide` reads it. */
  function SlotsAnswer(r: Reply): Usage {
    if r.verdict.Allowed? then Usage(if r.attempts > 0 then r.attempts - 1 else 0, true, r.rate)
    else Usage(r.attempts, !r.verdict.DeniedByRate?, r.rate)
  }

  /** The two guards fail open: a take that was not answered reads as an open window. */
  function TakeOpen(p: Policy, m: Table<Key>, now: nat, note: nat, subject: nat,
                    attemptsRead: nat, link: Link): (Table<Key>, Usage)
  {
    var (m', reply) := Take(p.limits, m, now, note, subject);
    match link
    case Answers => (m', SlotsAnswer(reply))
    case Fails(applied) => (if applied then m' else m, Usage(attemptsRead, true, 0))
  }

  function Provisional(p: Policy, total: int, question: Option<string>, attemptsRead: nat,
                       resubmission: bool): Decision {
    Decide(p, total, question, Usage(attemptsRead, true, 0), resubmission)
  }

  /** The one trip, or none. */
  function Trip(p: Policy, provisional: Decision, m: Table<Key>, now: nat, note: nat, subject: nat,
                attemptsRead: nat, link: Link): (Table<Key>, Usage)
  {
    if provisional.promptSent then TakeOpen(p, m, now, note, subject, attemptsRead, link)
    else if provisional.withheld == Some(NothingToAsk) then
      (m, Usage(attemptsRead, true, if link.Answers? then Count(m, Hourly(subject), now) else 0))
    else (m, Usage(attemptsRead, true, 0))
  }

  /** One judged note at the store: everything the decision depends on. */
  datatype Case = Case(
    policy: Policy, total: int, question: Option<string>, resubmission: bool,
    note: nat, subject: nat, attemptsRead: nat)
  {
    function First(): Decision { Provisional(policy, total, question, attemptsRead, resubmission) }
  }

  /** Provisional decision, trip, final decision. */
  function Judge(c: Case, m: Table<Key>, now: nat, link: Link): (Table<Key>, Decision) {
    var (m', usage) := Trip(c.policy, c.First(), m, now, c.note, c.subject, c.attemptsRead, link);
    (m', Decide(c.policy, c.total, c.question, usage, c.resubmission))
  }

  /** The trip as it runs against the store. */
  method RateLimitTrip(redis: Redis<Key>, p: Policy, provisional: Decision, note: nat, subject: nat,
                       attemptsRead: nat, link: Link) returns (usage: Usage)
    modifies redis`table
    ensures (redis.table, usage)
         == Trip(p, provisional, old(redis.table), redis.now, note, subject, attemptsRead, link)
  {
    if provisional.promptSent {
      usage := TakeSlotsOrBypass(redis, p, note, subject, attemptsRead, link);
    } else if provisional.withheld == Some(NothingToAsk) {
      var count := redis.Get(Hourly(subject));
      usage := Usage(attemptsRead, true, if link.Answers? then count else 0);
    } else {
      usage := Usage(attemptsRead, true, 0);
    }
  }

  method TakeSlotsOrBypass(redis: Redis<Key>, p: Policy, note: nat, subject: nat, attemptsRead: nat, link: Link)
    returns (usage: Usage)
    modifies redis`table
    ensures (redis.table, usage)
         == TakeOpen(p, old(redis.table), redis.now, note, subject, attemptsRead, link)
  {
    usage := Usage(attemptsRead, true, 0);
    if link.Answers? || link.applied {
      var reply := TakePromptSlots(redis, p.limits, note, subject);
      if link.Answers? {
        usage := SlotsAnswer(reply);
      }
    }
  }

  /** The length gate's question: for a note that is too short, and for no other.  No model wrote
      it, and it is capped in the same trip.  The read and the take are two commands, and each may
      fail. */
  method FixedQuestion(redis: Redis<Key>, p: Policy, detail: Detail, prompt: string, resubmission: bool,
                       note: nat, subject: nat, read: Link, take: Link)
    returns (question: Option<string>, withheld: Option<Withheld>)
    modifies redis`table
    ensures question == if detail.NoteTooShort? then Some(prompt) else None
    ensures !detail.NoteTooShort? ==> withheld == None && redis.table == old(redis.table)
    ensures detail.NoteTooShort? && resubmission ==> withheld == Some(Resubmission) && redis.table == old(redis.table)
    ensures detail.NoteTooShort? && !resubmission && take.Answers? ==>
      var (m, reply) := Take(p.limits, old(redis.table), redis.now, note, subject);
      && redis.table == m
      && withheld == match reply.verdict
                     case Allowed => None
                     case DeniedByAttempt => Some(AttemptCap)
                     case DeniedByRate => Some(RateLimited)
    ensures detail.NoteTooShort? && !resubmission && take.Fails? ==>
      var seen := if read.Answers? then Count(old(redis.table), Attempts(note), redis.now) else 0;
      && redis.table == (if take.applied then Take(p.limits, old(redis.table), redis.now, note, subject).0
                         else old(redis.table))
      && withheld == if seen >= p.limits.attemptCap then Some(AttemptCap)
                     else if p.limits.hourly == 0 then Some(RateLimited)
                     else None
  {
    if !detail.NoteTooShort? {
      return None, None;
    }
    question := Some(prompt);
    if resubmission {
      return question, Some(Resubmission);
    }
    var attempts := redis.Get(Attempts(note));
    var attemptsRead := if read.Answers? then attempts else 0;
    var usage := TakeSlotsOrBypass(redis, p, note, subject, attemptsRead, take);
    withheld := WithheldReason(p, question, usage, false);
  }

  // ----- the advice ---------------------------------------------------------------------

  /** Whatever the store holds and answers, the action depends on the total alone, and each action
      has its own stretch of totals. */
  lemma {:induction false} ActionsSplitTheTotals(c: Case, m: Table<Key>, now: nat, link: Link)
    requires c.policy.flag < c.policy.accept
    ensures var action := Judge(c, m, now, link).1.action;
      && (action == AcceptSilent <==> c.total >= c.policy.accept)
      && (action == AcceptFlagPrompt <==> c.policy.flag <= c.total < c.policy.accept)
      && (action == PromptClarification <==> c.total < c.policy.flag)
  {}

  /** A scored note is flagged if and only if enforcement is on and its total is below the accept
      threshold, and one that was not scored if and only if enforcement is on and it was too
      short.  Strict flags what advisory flags. */
  lemma {:induction false} FlaggedExactlyWhen(c: Case, m: Table<Key>, now: nat, link: Link, detail: Detail)
    ensures Enforcement(c.policy, Some(Judge(c, m, now, link).1.action), None) == Flag
            <==> c.policy.mode != Off && c.total < c.policy.accept
    ensures Enforcement(c.policy, None, Some(detail)) == Flag <==> c.policy.mode != Off && detail == NoteTooShort
    ensures Enforcement(c.policy, None, None) == Allow
  {}

  // ----- the reasons --------------------------------------------------------------------

  /** Why a prompt may be held back, from the most specific fact to the least. */
  const PRIORITY: seq<Withheld> := [Resubmission, AttemptCap, RateLimited, NothingToAsk]

  predicate Holds(w: Withheld, p: Policy, question: Option<string>, u: Usage, resubmission: bool) {
    match w
    case Resubmission => resubmission
    case AttemptCap => u.attempts >= p.limits.attemptCap
    case RateLimited => !u.rateAllowed || u.rateCount >= p.limits.hourly
    case NothingToAsk => question.None?
  }

  /** The reported reason is the first of the four that holds, and there is one unless none
      holds. */
  lemma {:induction false} FirstHoldingReasonIsReported(p: Policy, question: Option<string>, u: Usage,
                                        resubmission: bool, i: nat)
    requires i < |PRIORITY|
    ensures var reason := WithheldReason(p, question, u, resubmission);
      && (reason == Some(PRIORITY[i]) <==>
            Holds(PRIORITY[i], p, question, u, resubmission)
            && forall j :: 0 <= j < i ==> !Holds(PRIORITY[j], p, question, u, resubmission))
      && (reason == None <==>
            forall j :: 0 <= j < |PRIORITY| ==> !Holds(PRIORITY[j], p, question, u, resubmission))
  {
    assert PRIORITY[0] == Resubmission && PRIORITY[1] == AttemptCap;
    assert PRIORITY[2] == RateLimited && PRIORITY[3] == NothingToAsk;
  }

  // ----- the two phases agree -----------------------------------------------------------

  /** When the store answers, the final decision sends exactly when the script took the
      slots; then the three counters are up by one, and otherwise the table is untouched. */
  lemma {:induction false} SendsExactlyWhenTaken(c: Case, m: Table<Key>, now: nat)
    ensures var (m', d) := Judge(c, m, now, Answers);
      var took := c.First().promptSent
               && Take(c.policy.limits, m, now, c.note, c.subject).1.verdict.Allowed?;
      && d.promptSent == took
      && m' == if took then Taken(c.policy.limits, m, now, c.note, c.subject) else m
  {}

  /** A refused take reports exactly the guard that refused. */
  lemma {:induction false} RefusalNamesTheGuard(c: Case, m: Table<Key>, now: nat)
    requires c.First().promptSent
    ensures var d := Judge(c, m, now, Answers).1;
      && (d.withheld == Some(AttemptCap) <==>
            Count(m, Attempts(c.note), now) >= c.policy.limits.attemptCap)
      && (d.withheld == Some(RateLimited) <==>
            Count(m, Attempts(c.note), now) < c.policy.limits.attemptCap
            && (Count(m, Hourly(c.subject), now) >= c.policy.limits.hourly
                || Count(m, Daily(c.subject), now) >= c.policy.limits.daily))
      && (d.withheld.Some? ==> d.withheld in {Some(AttemptCap), Some(RateLimited)})
  {}

  /** A decision that does not want to send touches no counter whatever the store does, keeps
      its action, and changes its reason in one case: nothing to ask, and an exhausted hourly
      window. */
  lemma {:induction false} QuietPathsAreUntouched(c: Case, m: Table<Key>, now: nat, link: Link)
    requires !c.First().promptSent
    ensures var (m', d) := Judge(c, m, now, link);
      var exhausted := link.Answers? && Count(m, Hourly(c.subject), now) >= c.policy.limits.hourly;
      && m' == m
      && !d.promptSent
      && d.action == c.First().action
      && d.attempt == c.attemptsRead
      && d.withheld == if c.First().withheld == Some(NothingToAsk) && exhausted
                       then Some(RateLimited) else c.First().withheld
  {}

  /** A silent accept carries no reason and never meets the store. */
  lemma {:induction false} SilentAcceptIsSilent(c: Case, m: Table<Key>, now: nat, link: Link)
    requires c.total >= c.policy.accept
    ensures var (m', d) := Judge(c, m, now, link);
      && m' == m && !d.promptSent && d.withheld == None && d.action == AcceptSilent
  {}

  /** The guards fail open: after a trip that was not answered, whichever trip it was, the
      provisional decision stands as it is; the counters have moved all the same if it was a take
      that was applied and found its slots. */
  lemma {:induction false} UnansweredTripChangesNothing(c: Case, m: Table<Key>, now: nat, applied: bool)
    ensures var (m', d) := Judge(c, m, now, Fails(applied));
      var took := applied && c.First().promptSent
               && Take(c.policy.limits, m, now, c.note, c.subject).1.verdict.Allowed?;
      && d == c.First()
      && m' == if took then Taken(c.policy.limits, m, now, c.note, c.subject) else m
  {}

  // ----- the number that is reported ----------------------------------------------------

  /** The take of this judgement, in a run after `asks`. */
  function Claimed(c: Case, asks: seq<Ask>, now: nat): seq<Claim> {
    Claims(c.policy.limits, asks + [Ask(now, c.note, c.subject)], Attempts(c.note))
  }

  /** The script took this judgement's slots. */
  predicate Takes(c: Case, asks: seq<Ask>, now: nat, link: Link) {
    && c.First().promptSent && link.Applied()
    && Take(c.policy.limits, Ran(c.policy.limits, asks), now, c.note, c.subject).1.verdict.Allowed?
  }

  /** `attempt` is the number this judgement's own take claimed. */
  predicate ReportsItsClaim(c: Case, asks: seq<Ask>, now: nat, link: Link) {
    var log := Claimed(c, asks, now);
    && Takes(c, asks, now, link)
    && log != [] && log[|log| - 1].at == now
    && Judge(c, Ran(c.policy.limits, asks), now, link).1.attempt == log[|log| - 1].number
  }

  lemma {:induction false} TakeIsTheLastClaim(c: Case, asks: seq<Ask>, now: nat, link: Link)
    requires Takes(c, asks, now, link)
    ensures var log := Claimed(c, asks, now);
      && log != [] && log[|log| - 1].at == now
      && log[|log| - 1].number == Count(Ran(c.policy.limits, asks), Attempts(c.note), now) + 1
  {
    var l, ask := c.policy.limits, Ask(now, c.note, c.subject);
    assert (asks + [ask])[..|asks|] == asks;
    TakenAt(l, Ran(l, asks), now, c.note, c.subject, Attempts(c.note));
  }

  /** In every interleaving, a judgement that sends reports in `attempt` the number its own take
      claimed if and only if the store answered, or the take was applied, its reply was lost and
      the count read before the model ran was still the stored one. */
  lemma {:induction false} AttemptIsTheClaimedNumberExactlyWhen(c: Case, asks: seq<Ask>, now: nat, link: Link)
    requires Judge(c, Ran(c.policy.limits, asks), now, link).1.promptSent
    ensures (ReportsItsClaim(c, asks, now, link)
             <==> link.Answers?
                  || (Takes(c, asks, now, link)
                      && c.attemptsRead == Count(Ran(c.policy.limits, asks), Attempts(c.note), now)))
  {
    hide Ran, Claims, Take;
    if Takes(c, asks, now, link) {
      TakeIsTheLastClaim(c, asks, now, link);
    }
    ReportedAttempt(c, Ran(c.policy.limits, asks), now, link);
  }

  /** What every judgement reports: the count the store answered, or else the one read early, and
      one more if it sends; and what is left of the cap. */
  lemma {:induction false} ReportedAttempt(c: Case, m: Table<Key>, now: nat, link: Link)
    ensures var d := Judge(c, m, now, link).1;
      var stored := if c.First().promptSent && link.Answers? then Count(m, Attempts(c.note), now) else c.attemptsRead;
      && d.attempt == stored + (if d.promptSent then 1 else 0)
      && (d.attempt <= c.policy.limits.attemptCap ==> d.remaining == c.policy.limits.attemptCap - d.attempt)
      && (d.attempt >= c.policy.limits.attemptCap ==> d.remaining == 0)
      && (d.promptSent ==> c.First().promptSent && d.attempt <= c.policy.limits.attemptCap)
      && (d.promptSent && link.Answers? ==>
            Take(c.policy.limits, m, now, c.note, c.subject).1.verdict.Allowed?)
  {}

  /** Two requests read the count before either has asked; the first takes number 1, the reply to
      the second is lost after its take, and the second reports 1 after claiming 2. */
  lemma {:induction false} ALostReplyMisreports() returns (c: Case, asks: seq<Ask>)
    ensures c.policy.limits.Valid() && c.attemptsRead == 0
    ensures Takes(c, asks, 0, Fails(true))
    ensures Judge(c, Ran(c.policy.limits, asks), 0, Fails(true)).1.attempt == 1
    ensures var log := Claimed(c, asks, 0); log != [] && log[|log| - 1].number == 2
  {
    var l := Limits(2, 9, 9, 9, 9, 9);
    c := Case(Policy(70, 40, l, Advisory), 0, Some("?"), false, 1, 1, 0);
    asks := [Ask(0, 1, 1)];
    assert asks[..0] == [];
    assert Ran(l, asks) == Taken(l, map[], 0, 1, 1);
    TakeIsTheLastClaim(c, asks, 0, Fails(true));
  }
}
