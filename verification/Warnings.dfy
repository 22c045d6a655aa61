/** The warning near a token budget: once for each window of each counter.

    Nothing is stored about it.  A charge warns when it carries its counter across the ratio, which
    it reads off the totals before and after. */
module Warnings {
  import opened Counters
  import opened Options
  import opened Tokens

  /** One execution of the charging script; the caller may not have heard of it. */
  datatype Charge = Charge(at: nat, tenant: nat, user: nat, amount: nat, answered: bool)

  ghost predicate Ordered(charges: seq<Charge>) {
    forall i, j :: 0 <= i <= j < |charges| ==> charges[i].at <= charges[j].at
  }

  function Metered(s: Settings, charges: seq<Charge>): Table<CounterKey> {
    if charges == [] then map[]
    else
      var c := charges[|charges| - 1];
      Spent(s, Metered(s, charges[..|charges| - 1]), c.at, c.tenant, c.user, c.amount)
  }

  /** One charge as one counter saw it; `born` names the counter's lifetime by its start. */
  datatype Line = Line(at: nat, born: int, before: nat, after: nat, answered: bool)

  function Lines(s: Settings, charges: seq<Charge>, k: CounterKey): seq<Line> {
    if charges == [] then []
    else
      var c := charges[|charges| - 1];
      var earlier := charges[..|charges| - 1];
      if Pays(c.tenant, c.user, k) then
        var m, m' := Metered(s, earlier), Metered(s, charges);
        Lines(s, earlier, k) + [Line(c.at, Born(s, m', k), Count(m, k, c.at), Total(m', k), c.answered)]
      else Lines(s, earlier, k)
  }

  function Born(s: Settings, m: Table<CounterKey>, k: CounterKey): int {
    (if k in m && m[k].expiresAt.Some? then m[k].expiresAt.value else 0) - s.window
  }

  function Total(m: Table<CounterKey>, k: CounterKey): nat {
    if k in m then m[k].count else 0
  }

  /** The charges of one lifetime that carried it across the ratio. */
  function Crossings(threshold: real, log: seq<Line>, born: int): nat {
    if log == [] then 0
    else
      var last := log[|log| - 1];
      Crossings(threshold, log[..|log| - 1], born)
      + if last.born == born && Crosses(threshold, last.before, last.after) then 1 else 0
  }

  /** The warnings emitted in one lifetime: a crossing nobody heard of warns of nothing. */
  function Warned(threshold: real, log: seq<Line>, born: int): nat {
    if log == [] then 0
    else
      var last := log[|log| - 1];
      Warned(threshold, log[..|log| - 1], born)
      + if last.born == born && Crosses(threshold, last.before, last.after) && last.answered then 1 else 0
  }

  /** The largest total one lifetime reached. */
  function Peak(log: seq<Line>, born: int): nat {
    if log == [] then 0
    else
      var last := log[|log| - 1];
      var earlier := Peak(log[..|log| - 1], born);
      if last.born == born && last.after > earlier then last.after else earlier
  }

  /** Each charge starts a later lifetime at 0 or continues the running one from its total,
      and the table is where the last one left it. */
  ghost predicate Continues(s: Settings, k: CounterKey, log: seq<Line>, m: Table<CounterKey>) {
    if log == [] then k !in m
    else
      var last := log[|log| - 1];
      && last.born + s.window >= 0
      && k in m && m[k] == Entry(last.after, Some(last.born + s.window))
      && last.after == Peak(log, last.born)
      && forall i :: 0 <= i < |log| ==> log[i].born <= last.born
  }

  lemma {:induction false} NothingBeforeBirth(threshold: real, log: seq<Line>, born: int)
    requires forall i :: 0 <= i < |log| ==> log[i].born < born
    ensures Crossings(threshold, log, born) == 0 && Peak(log, born) == 0
  {
    if log != [] {
      NothingBeforeBirth(threshold, log[..|log| - 1], born);
    }
  }

  /** How one more charge of `k` sits beside the charges before it. */
  lemma {:induction false} NextLine(s: Settings, m: Table<CounterKey>, c: Charge, k: CounterKey, log: seq<Line>)
    requires Continues(s, k, log, m) && Pays(c.tenant, c.user, k)
    requires log != [] ==> log[|log| - 1].born <= c.at
    ensures var m' := Spent(s, m, c.at, c.tenant, c.user, c.amount);
      var line := Line(c.at, Born(s, m', k), Count(m, k, c.at), Total(m', k), c.answered);
      && Continues(s, k, [line], m')
      && line.after == line.before + c.amount
      && line.born <= c.at
      && (log != [] ==>
            var last := log[|log| - 1];
            if line.born == last.born then s.window > 0 ==> line.before == last.after
            else line.born >= last.born + s.window && line.before == 0)
      && (log == [] ==> line.before == 0)
  {
    var m' := Spent(s, m, c.at, c.tenant, c.user, c.amount);
    assert m'[k] == Charged(m, k, c.at, c.amount, s.window)[k];
    assert [Line(c.at, Born(s, m', k), Count(m, k, c.at), Total(m', k), c.answered)][..0] == [];
  }

  /** The log with one more line. */
  lemma {:induction false} LogContinues(s: Settings, k: CounterKey, log: seq<Line>, m: Table<CounterKey>,
                                        line: Line, m': Table<CounterKey>)
    requires Continues(s, k, log, m) && Continues(s, k, [line], m')
    requires line.before <= line.after
    requires log == [] || line.born >= log[|log| - 1].born
    requires if log == [] || line.born > log[|log| - 1].born then line.before == 0
             else line.before == log[|log| - 1].after
    ensures Continues(s, k, log + [line], m')
  {
    assert (log + [line])[..|log|] == log;
    if log == [] || line.born > log[|log| - 1].born {
      NothingBeforeBirth(1.0, log, line.born);
    }
  }

  lemma {:induction false} MeterContinues(s: Settings, charges: seq<Charge>, k: CounterKey)
    requires s.window > 0 && Ordered(charges)
    ensures var log := Lines(s, charges, k);
      && Continues(s, k, log, Metered(s, charges))
      && (log != [] ==> charges != [] && log[|log| - 1].born <= charges[|charges| - 1].at)
  {
    hide Spent, Born, Total, Continues;
    if charges == [] {
      NothingYet(s, k);
    } else {
      var n := |charges| - 1;
      var m, log := Metered(s, charges[..n]), Lines(s, charges[..n], k);
      MeterContinues(s, charges[..n], k);
      if n > 0 {
        assert charges[..n][n - 1].at <= charges[n].at;
      }
      if Pays(charges[n].tenant, charges[n].user, k) {
        NextLine(s, m, charges[n], k, log);
        LogContinues(s, k, log, m, Lines(s, charges, k)[|log|], Metered(s, charges));
      } else {
        OthersAreUntouched(s, m, charges[n], k, log);
      }
    }
  }

  lemma {:induction false} NothingYet(s: Settings, k: CounterKey)
    ensures Continues(s, k, [], map[])
  {}

  lemma {:induction false} OthersAreUntouched(s: Settings, m: Table<CounterKey>, c: Charge, k: CounterKey,
                                        log: seq<Line>)
    requires !Pays(c.tenant, c.user, k) && Continues(s, k, log, m)
    ensures Continues(s, k, log, Spent(s, m, c.at, c.tenant, c.user, c.amount))
  {}

  /** One more charge keeps the count of warnings right. */
  lemma {:induction false} OneMoreLine(threshold: real, log: seq<Line>, line: Line, born: int)
    requires threshold > 0.0 && line.before <= line.after
    requires forall i :: 0 <= i < |log| ==> log[i].born <= log[|log| - 1].born
    requires if log == [] || log[|log| - 1].born < line.born then line.before == 0
             else log[|log| - 1].born == line.born && line.before == Peak(log, line.born)
    requires Crossings(threshold, log, born) == if Peak(log, born) as real >= threshold then 1 else 0
    ensures var more := log + [line];
      Crossings(threshold, more, born) == if Peak(more, born) as real >= threshold then 1 else 0
  {
    assert (log + [line])[..|log|] == log;
    if log == [] || log[|log| - 1].born < line.born {
      NothingBeforeBirth(threshold, log, line.born);
    }
  }

  lemma {:induction false} OneCrossing(s: Settings, threshold: real, charges: seq<Charge>, k: CounterKey, born: int)
    requires threshold > 0.0 && s.window > 0 && Ordered(charges)
    ensures var log := Lines(s, charges, k);
      Crossings(threshold, log, born) == if Peak(log, born) as real >= threshold then 1 else 0
  {
    if charges != [] {
      var n := |charges| - 1;
      var log := Lines(s, charges[..n], k);
      OneCrossing(s, threshold, charges[..n], k, born);
      if Pays(charges[n].tenant, charges[n].user, k) {
        MeterContinues(s, charges[..n], k);
        if n > 0 {
          assert charges[..n][n - 1].at <= charges[n].at;
        }
        NextLine(s, Metered(s, charges[..n]), charges[n], k, log);
        OneMoreLine(threshold, log, Lines(s, charges, k)[|log|], born);
      }
    }
  }

  /** Every crossing of the lifetime was answered. */
  ghost predicate CrossingsHeard(threshold: real, log: seq<Line>, born: int) {
    forall i | 0 <= i < |log| ::
      log[i].born == born && Crosses(threshold, log[i].before, log[i].after) ==> log[i].answered
  }

  lemma {:induction false} WarnedAreCrossingsHeard(threshold: real, log: seq<Line>, born: int)
    ensures Warned(threshold, log, born) <= Crossings(threshold, log, born)
    ensures Warned(threshold, log, born) == Crossings(threshold, log, born) <==> CrossingsHeard(threshold, log, born)
  {
    if log != [] {
      var front := log[..|log| - 1];
      WarnedAreCrossingsHeard(threshold, front, born);
      assert forall i | 0 <= i < |front| :: log[i] == front[i];
    }
  }

  /** Every lifetime of every counter is carried across the ratio of its limit by exactly one
      charge if its total ever reaches it, and by none otherwise; and it emits that one warning
      if and only if that charge was answered. */
  lemma {:induction false} OneWarningPerWindow(s: Settings, charges: seq<Charge>, k: CounterKey, born: int)
    requires s.Valid() && s.window > 0 && Ordered(charges)
    ensures var log := Lines(s, charges, k); var threshold := Threshold(s, k);
      && Crossings(threshold, log, born) == (if Near(s, k, Peak(log, born)) then 1 else 0)
      && Warned(threshold, log, born) == (if Near(s, k, Peak(log, born)) && CrossingsHeard(threshold, log, born) then 1 else 0)
  {
    ThresholdIsPositive(s, k);
    OneCrossing(s, Threshold(s, k), charges, k, born);
    WarnedAreCrossingsHeard(Threshold(s, k), Lines(s, charges, k), born);
  }

  lemma {:induction false} ThresholdIsPositive(s: Settings, k: CounterKey)
    requires s.Valid()
    ensures Threshold(s, k) > 0.0
  {
    assert Limit(s, k) as real >= 1.0;
  }

  /** The counter is near its limit, and one charge of its running window has carried it there. */
  ghost predicate HasCrossed(s: Settings, charges: seq<Charge>, k: CounterKey, now: nat) {
    var log := Lines(s, charges, k);
    && Near(s, k, Count(Metered(s, charges), k, now))
    && log != [] && now < log[|log| - 1].born + s.window
    && Crossings(Threshold(s, k), log, log[|log| - 1].born) == 1
  }

  /** A preflight degrades the judgement if and only if one of its two counters is near; and for
      each counter that is, the crossing charge of the running window has already happened. */
  lemma {:induction false} DegradedMeansCrossed(s: Settings, charges: seq<Charge>, now: nat, tenant: nat, user: nat,
                                        k: CounterKey)
    requires s.Valid() && Ordered(charges)
    requires charges != [] ==> charges[|charges| - 1].at <= now
    requires !Preflight(s, Metered(s, charges), now, tenant, user).Refused?
    ensures Preflight(s, Metered(s, charges), now, tenant, user).degraded
            <==> exists c :: Pays(tenant, user, c) && Near(s, c, Count(Metered(s, charges), c, now))
    ensures Pays(tenant, user, k) && Near(s, k, Count(Metered(s, charges), k, now)) ==> HasCrossed(s, charges, k, now)
  {
    var m := Metered(s, charges);
    assert Pays(tenant, user, Tenant(tenant)) && Pays(tenant, user, User(tenant, user));
    if Pays(tenant, user, k) && Near(s, k, Count(m, k, now)) {
      NearHasCrossed(s, charges, now, k);
    }
  }

  lemma {:induction false} NearHasCrossed(s: Settings, charges: seq<Charge>, now: nat, k: CounterKey)
    requires s.Valid() && Ordered(charges)
    requires charges != [] ==> charges[|charges| - 1].at <= now
    requires Near(s, k, Count(Metered(s, charges), k, now))
    ensures HasCrossed(s, charges, k, now)
  {
    ThresholdIsPositive(s, k);
    if s.window == 0 {
      NoWindowHoldsNothing(s, charges, now, k);
    }
    MeterContinues(s, charges, k);
    var log := Lines(s, charges, k);
    OneWarningPerWindow(s, charges, k, log[|log| - 1].born);
  }

  /** Without a window nothing is ever held, and nothing is ever near. */
  lemma {:induction false} NoWindowHoldsNothing(s: Settings, charges: seq<Charge>, now: nat, k: CounterKey)
    requires s.window == 0 && Ordered(charges)
    requires charges != [] ==> charges[|charges| - 1].at <= now
    ensures Count(Metered(s, charges), k, now) == 0
    ensures k in Metered(s, charges) ==> !Live(Metered(s, charges), k, now)
  {
    if charges != [] {
      var n := |charges| - 1;
      if n > 0 {
        assert charges[..n][n - 1].at <= charges[n].at;
      }
      NoWindowHoldsNothing(s, charges[..n], charges[n].at, k);
      NoWindowHoldsNothing(s, charges[..n], now, k);
    }
  }
}
