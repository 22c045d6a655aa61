/** From yes/no answers to marks, total, band, action and verdict, under any tenant's rubric.
    Integer arithmetic throughout. */
module Scoring {
  import opened Options
  import opened Rounding
  import Decide
  import PromptSlots

  datatype Component = WhatHappened | ClientSaid | NextStepDate | DealSpecifics | Clarity

  datatype Check =
    | WhOutcome | WhAction
    | CsPresent | CsOwnTerms
    | NsAction | NsDate | NsClosure
    | DsFigures | DsSubject | DsTiming
    | ClReadable | ClSubstance

  datatype NoteType = NoContact | Callback | Discovery | Viewing | Negotiation | WonLost | SystemEvent

  datatype Band = Poor | Fair | Good | Excellent

  const COMPONENTS: seq<Component> := [WhatHappened, ClientSaid, NextStepDate, DealSpecifics, Clarity]

  const CHECKS: seq<Check> :=
    [WhOutcome, WhAction, CsPresent, CsOwnTerms, NsAction, NsDate, NsClosure,
     DsFigures, DsSubject, DsTiming, ClReadable, ClSubstance]

  const BANDS: seq<Band> := [Poor, Fair, Good, Excellent]

  type Answers = map<Check, bool>

  /** The part of a tenant's configuration that scoring reads. */
  datatype Rubric = Rubric(
    weights: map<Component, int>,
    bands: seq<(Band, int)>,
    checks: map<Component, seq<Check>>,
    suppressed: map<NoteType, set<Component>>,
    dealSpecifics: bool,
    policy: Decide.Policy)

  function AllChecks(cs: seq<Component>, checks: map<Component, seq<Check>>): seq<Check>
    requires forall c | c in cs :: c in checks
  {
    if cs == [] then [] else checks[cs[0]] + AllChecks(cs[1..], checks)
  }

  function Sum(cs: seq<Component>, m: map<Component, int>): int
    requires forall c | c in cs :: c in m
  {
    if cs == [] then 0 else m[cs[0]] + Sum(cs[1..], m)
  }

  /** Every component has a weight, which is not negative, and a list of checks; there is a
      band. */
  predicate Complete(r: Rubric) {
    && (forall c: Component :: c in r.weights && c in r.checks)
    && (forall c: Component :: r.weights[c] >= 0)
    && r.bands != []
  }

  predicate WeightsFit(r: Rubric)
    requires Complete(r)
  {
    && Sum(COMPONENTS, r.weights) == 100
    && exists c: Component :: r.weights[c] != 0 && (c != DealSpecifics || r.dealSpecifics)
  }

  /** All bands in order, with growing upper bounds that end at 100. */
  predicate BandsFit(bands: seq<(Band, int)>) {
    && |bands| == |BANDS|
    && (forall i | 0 <= i < |BANDS| :: bands[i].0 == BANDS[i])
    && (forall i | 0 <= i < |BANDS| - 1 :: bands[i].1 < bands[i + 1].1)
    && bands[0].1 >= 0 && bands[|BANDS| - 1].1 == 100
  }

  /** Every check belongs to exactly one component. */
  predicate ChecksFit(r: Rubric)
    requires Complete(r)
  {
    multiset(AllChecks(COMPONENTS, r.checks)) == multiset(CHECKS)
  }

  /** The configuration check at startup. */
  predicate Checked(r: Rubric) {
    Complete(r) && WeightsFit(r) && BandsFit(r.bands) && ChecksFit(r) && r.policy.flag < r.policy.accept
  }

  // ----- mark tables ----------------------------------------------------------------------

  function Max(a: int, b: int): int { if a >= b then a else b }

  function Min(a: int, b: int): int { if a <= b then a else b }

  /** How many true checks earn the whole weight. */
  function FullAt(c: Component, checks: nat): (full: int)
    ensures full > 0
  {
    Max(1, if c.NextStepDate? then 2 else checks)
  }

  function Mark(weight: int, full: int, trues: nat): int
    requires full > 0
  {
    HalfUpDoubled(weight * Min(trues, full), full)
  }

  function MarkTable(c: Component, weight: int, checks: nat): seq<int> {
    seq(checks + 1, k requires 0 <= k => Mark(weight, FullAt(c, checks), k))
  }

  function Tables(weights: map<Component, int>, checks: map<Component, seq<Check>>): map<Component, seq<int>> {
    map c | c in checks && c in weights :: MarkTable(c, weights[c], |checks[c]|)
  }

  method MarkRow(c: Component, weight: int, checks: nat) returns (row: seq<int>)
    ensures row == MarkTable(c, weight, checks)
  {
    var full := Max(1, if c.NextStepDate? then 2 else checks);
    row := [];
    for k := 0 to checks + 1
      invariant |row| == k
      invariant forall i | 0 <= i < k :: row[i] == Mark(weight, full, i)
    {
      row := row + [(weight * Min(k, full) * 2 + full) / (2 * full)];
    }
  }

  method DeriveMarks(weights: map<Component, int>, checks: map<Component, seq<Check>>)
    returns (marks: map<Component, seq<int>>)
    ensures marks == Tables(weights, checks)
  {
    marks := map[];
    var rest := checks.Keys;
    while rest != {}
      invariant rest <= checks.Keys
      invariant marks == Tables(weights, map c | c in checks.Keys - rest :: checks[c])
    {
      var c :| c in rest;
      rest := rest - {c};
      if c in weights {
        var row := MarkRow(c, weights[c], |checks[c]|);
        marks := marks[c := row];
      }
    }
    assert checks == map c | c in checks.Keys - rest :: checks[c];
  }

  lemma {:induction false} Marked(weight: int, full: int, k: nat)
    requires full > 0
    ensures Mark(weight, full, k) == HalfUp(weight * Min(k, full), full)
    ensures Nearest(Mark(weight, full, k), weight * Min(k, full), full)
  {
    SpellingsAgree(weight * Min(k, full), full);
  }

  lemma {:induction false} MarkIsWithin(weight: int, full: int, k: nat)
    requires weight >= 0 && full > 0
    ensures 0 <= Mark(weight, full, k) <= weight
    ensures k == 0 ==> Mark(weight, full, k) == 0
    ensures k >= full ==> Mark(weight, full, k) == weight
  {
    hide HalfUp, HalfUpDoubled, Mark;
    Marked(weight, full, k);
    Scaled(weight, 0, Min(k, full));
    Scaled(weight, Min(k, full), full);
    StaysBetween(weight * Min(k, full), full, 0, weight);
    Exact(0, full);
    Exact(weight, full);
  }

  lemma {:induction false} MarkGrows(weight: int, full: int, j: nat, k: nat)
    requires weight >= 0 && full > 0 && j <= k
    ensures Mark(weight, full, j) <= Mark(weight, full, k)
  {
    hide HalfUp, HalfUpDoubled, Mark;
    Marked(weight, full, j);
    Marked(weight, full, k);
    Scaled(weight, Min(j, full), Min(k, full));
    Monotone(weight * Min(j, full), weight * Min(k, full), full);
  }

  /** A mark table runs from 0 up to the weight, never falls, and is everywhere the nearest
      whole number to an even split. */
  lemma {:induction false} MarkTableIsAnEvenSplit(c: Component, weight: int, checks: nat, j: nat, k: nat)
    requires weight >= 0 && j <= k <= checks
    ensures var full := FullAt(c, checks); var table := MarkTable(c, weight, checks);
      && |table| == checks + 1
      && table[0] == 0 <= table[j] <= table[k] <= weight
      && (k >= full ==> table[k] == weight)
      && Nearest(table[k], weight * Min(k, full), full)
  {
    hide HalfUp, HalfUpDoubled, Mark, FullAt, Nearest;
    var full := FullAt(c, checks);
    Marked(weight, full, k);
    MarkIsWithin(weight, full, 0);
    MarkIsWithin(weight, full, j);
    MarkIsWithin(weight, full, k);
    MarkGrows(weight, full, j, k);
  }

  /** In numbers: every check is worth the same share of the weight, and of the next step's the first
      two that are met are worth half each. */
  lemma {:induction false} EveryCheckIsWorthTheSame(c: Component, weight: int, checks: nat, k: nat)
    requires weight >= 0 && k <= checks
    ensures var table := MarkTable(c, weight, checks);
      && |table| == checks + 1 && table[0] == 0
      && (c != NextStepDate && checks > 0 ==> Nearest(table[k], weight * k, checks))
      && (c == NextStepDate && k <= 2 ==> Nearest(table[k], weight * k, 2))
      && (c == NextStepDate && k >= 2 ==> table[k] == weight)
  {
    hide HalfUp, HalfUpDoubled, Mark, Nearest;
    MarkTableIsAnEvenSplit(c, weight, checks, 0, k);
  }

  // ----- which components and checks count ------------------------------------------------

  predicate Applies(c: Component, t: NoteType, r: Rubric) {
    && !(t in r.suppressed && c in r.suppressed[t])
    && (c != DealSpecifics || r.dealSpecifics)
  }

  function Kept(cs: seq<Component>, t: NoteType, r: Rubric): (kept: seq<Component>)
    ensures forall c :: c in kept <==> c in cs && Applies(c, t, r)
  {
    if cs == [] then []
    else (if Applies(cs[0], t, r) then [cs[0]] else []) + Kept(cs[1..], t, r)
  }

  function Applicable(t: NoteType, r: Rubric): seq<Component> { Kept(COMPONENTS, t, r) }

  function Asked(t: NoteType, r: Rubric): seq<Check>
    requires Complete(r)
  {
    AllChecks(Applicable(t, r), r.checks)
  }

  function AskedSet(t: NoteType, r: Rubric): set<Check>
    requires Complete(r)
  {
    set c | c in Asked(t, r)
  }

  lemma {:induction false} ListedByComponent(cs: seq<Component>, checks: map<Component, seq<Check>>, x: Check)
    requires forall c | c in cs :: c in checks
    ensures x in AllChecks(cs, checks) <==> exists c | c in cs :: x in checks[c]
  {
    if cs != [] {
      ListedByComponent(cs[1..], checks, x);
      assert cs == [cs[0]] + cs[1..];
    }
  }

  /** A check is asked if and only if a component it belongs to counts for the type: one that the type
      does not suppress, and the deal's figures only where the tenant wants them. */
  lemma {:induction false} AskedExactlyWhenItsComponentCounts(t: NoteType, r: Rubric, x: Check)
    requires Complete(r)
    ensures (x in AskedSet(t, r) <==> exists c: Component ::
      x in r.checks[c] && (t in r.suppressed ==> c !in r.suppressed[t]) && (c == DealSpecifics ==> r.dealSpecifics))
  {
    ListedByComponent(Applicable(t, r), r.checks, x);
    forall c: Component { EveryComponentIsListed(c); }
    assert forall c: Component :: c in Applicable(t, r) <==> Applies(c, t, r);
  }

  datatype Fault = MissingCheck | CheckForSuppressedComponent

  /** The two ways an answer can be wrong, in check order. */
  function Problems(cs: seq<Check>, asked: set<Check>, answered: set<Check>): seq<(Check, Fault)> {
    if cs == [] then []
    else
      var c := cs[|cs| - 1];
      Problems(cs[..|cs| - 1], asked, answered)
      + if c in asked && c !in answered then [(c, MissingCheck)]
        else if c !in asked && c in answered then [(c, CheckForSuppressedComponent)]
        else []
  }

  method ValidateChecks(a: Answers, t: NoteType, r: Rubric) returns (problems: seq<(Check, Fault)>)
    requires Complete(r)
    ensures problems == Problems(CHECKS, AskedSet(t, r), a.Keys)
    ensures problems == [] <==> a.Keys == AskedSet(t, r)
  {
    var applicable := AskedSet(t, r);
    problems := [];
    for i := 0 to |CHECKS|
      invariant problems == Problems(CHECKS[..i], applicable, a.Keys)
    {
      assert CHECKS[..i + 1][..i] == CHECKS[..i];
      var check := CHECKS[i];
      if check in applicable && check !in a {
        problems := problems + [(check, MissingCheck)];
      } else if check !in applicable && check in a {
        problems := problems + [(check, CheckForSuppressedComponent)];
      }
    }
    assert CHECKS[..|CHECKS|] == CHECKS;
    NoProblemsExactlyWhenAsked(applicable, a.Keys);
  }

  lemma {:induction false} ProblemsListed(cs: seq<Check>, asked: set<Check>, answered: set<Check>, c: Check)
    ensures (c, MissingCheck) in Problems(cs, asked, answered) <==> c in cs && c in asked && c !in answered
    ensures ((c, CheckForSuppressedComponent) in Problems(cs, asked, answered)
             <==> c in cs && c !in asked && c in answered)
  {
    if cs != [] {
      ProblemsListed(cs[..|cs| - 1], asked, answered, c);
      assert cs == cs[..|cs| - 1] + [cs[|cs| - 1]];
    }
  }

  lemma {:induction false} EveryCheckIsListed(c: Check)
    ensures c in CHECKS
  {
    assert forall i | 0 <= i < |CHECKS| :: CHECKS[i] in CHECKS;
    assert CHECKS[0].WhOutcome? && CHECKS[1].WhAction? && CHECKS[2].CsPresent? && CHECKS[3].CsOwnTerms?;
    assert CHECKS[4].NsAction? && CHECKS[5].NsDate? && CHECKS[6].NsClosure? && CHECKS[7].DsFigures?;
    assert CHECKS[8].DsSubject? && CHECKS[9].DsTiming? && CHECKS[10].ClReadable? && CHECKS[11].ClSubstance?;
  }

  /** Answers pass exactly when every asked check, and no other, is answered. */
  lemma {:induction false} NoProblemsExactlyWhenAsked(asked: set<Check>, answered: set<Check>)
    ensures Problems(CHECKS, asked, answered) == [] <==> answered == asked
  {
    var problems := Problems(CHECKS, asked, answered);
    if problems == [] {
      forall c: Check
        ensures c in asked <==> c in answered
      {
        EveryCheckIsListed(c);
        ProblemsListed(CHECKS, asked, answered, c);
      }
    } else {
      var (c, fault) := problems[0];
      assert (c, fault) in problems;
      ProblemsListed(CHECKS, asked, answered, c);
      assert c in asked <==> fault.MissingCheck?;
      assert c in answered <==> !fault.MissingCheck?;
    }
  }

  // ----- the score ------------------------------------------------------------------------

  predicate Says(a: Answers, c: Check) { c in a && a[c] }

  function CountTrue(cs: seq<Check>, a: Answers): (n: nat)
    ensures n <= |cs|
  {
    if cs == [] then 0 else (if Says(a, cs[0]) then 1 else 0) + CountTrue(cs[1..], a)
  }

  function MarkFor(c: Component, a: Answers, r: Rubric): int
    requires Complete(r)
  {
    if c.NextStepDate? && Says(a, NsClosure) then r.weights[c]
    else Tables(r.weights, r.checks)[c][CountTrue(r.checks[c], a)]
  }

  function Marks(a: Answers, t: NoteType, r: Rubric): map<Component, int>
    requires Complete(r)
  {
    map c | c in Applicable(t, r) :: MarkFor(c, a, r)
  }

  function Raw(a: Answers, t: NoteType, r: Rubric): int
    requires Complete(r)
  {
    Sum(Applicable(t, r), Marks(a, t, r))
  }

  function Denominator(t: NoteType, r: Rubric): int
    requires Complete(r)
  {
    Sum(Applicable(t, r), r.weights)
  }

  function BandOf(bands: seq<(Band, int)>, total: int): Band
    requires bands != []
  {
    if total <= bands[0].1 || |bands| == 1 then bands[0].0 else BandOf(bands[1..], total)
  }

  /** The search, as it runs. */
  method BandFor(bands: seq<(Band, int)>, total: int) returns (band: Band)
    requires bands != []
    ensures band == BandOf(bands, total)
  {
    for i := 0 to |bands|
      invariant i < |bands| ==> BandOf(bands, total) == BandOf(bands[i..], total)
      invariant i == |bands| ==> BandOf(bands, total) == bands[|bands| - 1].0
    {
      if total <= bands[i].1 {
        return bands[i].0;
      }
    }
    return bands[|bands| - 1].0;
  }

  datatype Line = Line(name: Component, mark: Option<int>, weight: int, suppressed: bool)

  datatype Score = Score(total: int, band: Band, denominator: int, lines: seq<Line>)

  datatype Scored =
    | Ok(score: Score)
    | Rejected(problems: seq<(Check, Fault)>)
    | NoApplicableComponent

  /** One line a component, suppressed ones included. */
  function Lines(cs: seq<Component>, marks: map<Component, int>, t: NoteType, r: Rubric): seq<Line>
    requires Complete(r)
  {
    if cs == [] then []
    else
      var c := cs[0];
      [Line(c, if c in marks then Some(marks[c]) else None, r.weights[c], c !in Applicable(t, r))]
      + Lines(cs[1..], marks, t, r)
  }

  function ComputeScore(a: Answers, t: NoteType, r: Rubric): Scored
    requires Complete(r)
  {
    var problems := Problems(CHECKS, AskedSet(t, r), a.Keys);
    var denominator := Denominator(t, r);
    if problems != [] then Rejected(problems)
    else if denominator <= 0 then NoApplicableComponent
    else
      var total := Percent(Raw(a, t, r), denominator);
      Ok(Score(total, BandOf(r.bands, total), denominator, Lines(COMPONENTS, Marks(a, t, r), t, r)))
  }

  function Percent(raw: int, denominator: int): int
    requires denominator > 0
  {
    HalfUp(raw * 100, denominator)
  }

  // ----- sums -----------------------------------------------------------------------------

  lemma {:induction false} SumMonotone(cs: seq<Component>, m: map<Component, int>, m': map<Component, int>)
    requires forall c | c in cs :: c in m && c in m' && m[c] <= m'[c]
    ensures Sum(cs, m) <= Sum(cs, m')
  {
    if cs != [] { SumMonotone(cs[1..], m, m'); }
  }

  lemma {:induction false} SumVanishes(cs: seq<Component>, m: map<Component, int>)
    requires forall c | c in cs :: c in m && m[c] >= 0
    ensures Sum(cs, m) >= 0
    ensures Sum(cs, m) == 0 <==> forall c | c in cs :: m[c] == 0
  {
    if cs != [] {
      SumVanishes(cs[1..], m);
      assert forall c :: c in cs <==> c == cs[0] || c in cs[1..];
    }
  }

  lemma {:induction false} SumsMeetExactlyWhenEqual(cs: seq<Component>, m: map<Component, int>, m': map<Component, int>)
    requires forall c | c in cs :: c in m && c in m' && m[c] <= m'[c]
    ensures Sum(cs, m) == Sum(cs, m') <==> forall c | c in cs :: m[c] == m'[c]
  {
    if cs != [] {
      SumsMeetExactlyWhenEqual(cs[1..], m, m');
      SumMonotone(cs[1..], m, m');
      assert forall c :: c in cs <==> c == cs[0] || c in cs[1..];
    }
  }

  lemma {:induction false} KeptWeighNoMore(cs: seq<Component>, t: NoteType, r: Rubric)
    requires Complete(r)
    ensures Sum(Kept(cs, t, r), r.weights) <= Sum(cs, r.weights)
  {
    if cs != [] {
      KeptWeighNoMore(cs[1..], t, r);
      var rest := Kept(cs[1..], t, r);
      assert ([cs[0]] + rest)[1..] == rest;
      assert [] + rest == rest;
    }
  }

  lemma {:induction false} EveryComponentIsListed(c: Component)
    ensures c in COMPONENTS
  {
    assert COMPONENTS[0].WhatHappened? && COMPONENTS[1].ClientSaid? && COMPONENTS[2].NextStepDate?;
    assert COMPONENTS[3].DealSpecifics? && COMPONENTS[4].Clarity?;
  }

  lemma {:induction false} SumOfFive(m: map<Component, int>)
    requires forall c: Component :: c in m
    ensures Sum(COMPONENTS, m)
         == m[WhatHappened] + m[ClientSaid] + m[NextStepDate] + m[DealSpecifics] + m[Clarity]
  {
    assert [DealSpecifics, Clarity][1..] == [Clarity];
    assert [NextStepDate, DealSpecifics, Clarity][1..] == [DealSpecifics, Clarity];
    assert [ClientSaid, NextStepDate, DealSpecifics, Clarity][1..] == [NextStepDate, DealSpecifics, Clarity];
    assert COMPONENTS[1..] == [ClientSaid, NextStepDate, DealSpecifics, Clarity];
    assert Sum([Clarity], m) == m[Clarity];
    assert Sum([DealSpecifics, Clarity], m) == m[DealSpecifics] + m[Clarity];
    assert Sum([NextStepDate, DealSpecifics, Clarity], m) == m[NextStepDate] + m[DealSpecifics] + m[Clarity];
  }

  // ----- the theorems ---------------------------------------------------------------------

  /** A mark is never negative and never more than the weight; closing the lead earns the whole
      next-step weight whatever the other answers are. */
  lemma {:induction false} MarksStayWithinWeights(c: Component, a: Answers, r: Rubric)
    requires Complete(r)
    ensures 0 <= MarkFor(c, a, r) <= r.weights[c]
    ensures c.NextStepDate? && Says(a, NsClosure) ==> MarkFor(c, a, r) == r.weights[c]
    ensures CountTrue(r.checks[c], a) == 0 && !(c.NextStepDate? && Says(a, NsClosure)) ==> MarkFor(c, a, r) == 0
    ensures CountTrue(r.checks[c], a) >= FullAt(c, |r.checks[c]|) ==> MarkFor(c, a, r) == r.weights[c]
  {
    var n := |r.checks[c]|;
    MarkTableIsAnEvenSplit(c, r.weights[c], n, 0, CountTrue(r.checks[c], a));
  }

  lemma {:induction false} RawStaysWithinDenominator(a: Answers, t: NoteType, r: Rubric)
    requires Complete(r)
    ensures 0 <= Raw(a, t, r) <= Denominator(t, r)
  {
    forall c | c in Applicable(t, r)
      ensures 0 <= Marks(a, t, r)[c] <= r.weights[c]
    {
      MarksStayWithinWeights(c, a, r);
    }
    SumVanishes(Applicable(t, r), Marks(a, t, r));
    SumMonotone(Applicable(t, r), Marks(a, t, r), r.weights);
  }

  lemma {:induction false} WhenScored(a: Answers, t: NoteType, r: Rubric)
    requires Complete(r)
    ensures ComputeScore(a, t, r).Ok? <==> a.Keys == AskedSet(t, r) && Denominator(t, r) > 0
    ensures ComputeScore(a, t, r).Ok? ==>
              var s := ComputeScore(a, t, r).score;
              && s.denominator == Denominator(t, r)
              && s.total == HalfUp(Raw(a, t, r) * 100, s.denominator)
              && s.band == BandOf(r.bands, s.total)
  {
    hide Problems, AskedSet, Denominator, Raw, Marks, BandOf, HalfUp, Applicable, CHECKS;
    NoProblemsExactlyWhenAsked(AskedSet(t, r), a.Keys);
  }

  /** The total is a percentage: the nearest whole number to the exact one, between 0 and 100,
      over a denominator of at most 100. */
  lemma {:induction false} TotalIsTheNearestPercent(a: Answers, t: NoteType, r: Rubric)
    requires Complete(r) && WeightsFit(r) && ComputeScore(a, t, r).Ok?
    ensures var s := ComputeScore(a, t, r).score;
      && 0 < s.denominator <= 100
      && 0 <= s.total <= 100
      && Nearest(s.total, Raw(a, t, r) * 100, s.denominator)
  {
    hide ComputeScore, Raw, AskedSet, BandOf, HalfUp;
    WhenScored(a, t, r);
    var raw, d := Raw(a, t, r), Denominator(t, r);
    KeptWeighNoMore(COMPONENTS, t, r);
    RawStaysWithinDenominator(a, t, r);
    SpellingsAgree(raw * 100, d);
    StaysBetween(raw * 100, d, 0, 100);
  }

  /** Full marks for the note mean full marks for every component, and nothing means nothing. */
  lemma {:induction false} HundredMeansEveryMarkIsFull(a: Answers, t: NoteType, r: Rubric)
    requires Complete(r) && WeightsFit(r) && ComputeScore(a, t, r).Ok?
    ensures var total := ComputeScore(a, t, r).score.total;
      && (total == 100 <==> forall c | c in Applicable(t, r) :: MarkFor(c, a, r) == r.weights[c])
      && (Raw(a, t, r) == 0 <==> forall c | c in Applicable(t, r) :: MarkFor(c, a, r) == 0)
      && (total == 0 <==> Raw(a, t, r) == 0)
  {
    hide ComputeScore, AskedSet, BandOf, HalfUp, MarkFor, Applicable;
    WhenScored(a, t, r);
    TotalIsTheNearestPercent(a, t, r);
    RawStaysWithinDenominator(a, t, r);
    var cs, marks, raw, d := Applicable(t, r), Marks(a, t, r), Raw(a, t, r), Denominator(t, r);
    forall c | c in cs
      ensures 0 <= marks[c] <= r.weights[c]
    {
      MarksStayWithinWeights(c, a, r);
    }
    SumsMeetExactlyWhenEqual(cs, marks, r.weights);
    SumVanishes(cs, marks);
    EndsAreExact(raw, d);
  }

  lemma {:induction false} EndsAreExact(raw: int, d: int)
    requires 0 <= raw <= d <= 100 && d > 0
    ensures HalfUp(raw * 100, d) == 100 <==> raw == d
    ensures HalfUp(raw * 100, d) == 0 <==> raw == 0
  {
    Exact(100, d);
    Exact(0, d);
    if raw < d { WholeStepShows(raw * 100, d * 100, d); }
    if raw > 0 { WholeStepShows(d * 0, raw * 100, d); }
  }

  /** What the shown lines add up to. */
  function ShownMarks(lines: seq<Line>): int {
    if lines == [] then 0
    else (if lines[0].mark.Some? then lines[0].mark.value else 0) + ShownMarks(lines[1..])
  }

  function ShownWeights(lines: seq<Line>): int {
    if lines == [] then 0
    else (if lines[0].suppressed then 0 else lines[0].weight) + ShownWeights(lines[1..])
  }

  lemma {:induction false} LineAdds(line: Line, rest: seq<Line>)
    ensures ShownMarks([line] + rest) == (if line.mark.Some? then line.mark.value else 0) + ShownMarks(rest)
    ensures ShownWeights([line] + rest) == (if line.suppressed then 0 else line.weight) + ShownWeights(rest)
  {
    assert ([line] + rest)[1..] == rest;
  }

  lemma {:induction false} LinesAddUp(cs: seq<Component>, marks: map<Component, int>, t: NoteType, r: Rubric)
    requires Complete(r) && marks.Keys == set c | c in Applicable(t, r)
    ensures forall c | c in Kept(cs, t, r) :: c in marks
    ensures ShownMarks(Lines(cs, marks, t, r)) == Sum(Kept(cs, t, r), marks)
    ensures ShownWeights(Lines(cs, marks, t, r)) == Sum(Kept(cs, t, r), r.weights)
  {
    hide COMPONENTS;
    forall c | c in Kept(cs, t, r)
      ensures c in marks
    {
      EveryComponentIsListed(c);
    }
    if cs != [] {
      LinesAddUp(cs[1..], marks, t, r);
      EveryComponentIsListed(cs[0]);
      LineAdds(Lines(cs, marks, t, r)[0], Lines(cs[1..], marks, t, r));
      var rest := Kept(cs[1..], t, r);
      assert ([cs[0]] + rest)[1..] == rest;
      assert [] + rest == rest;
    }
  }

  lemma {:induction false} LinesInOrder(cs: seq<Component>, marks: map<Component, int>, t: NoteType, r: Rubric, i: nat)
    requires Complete(r) && marks.Keys == set c | c in Applicable(t, r)
    ensures |Lines(cs, marks, t, r)| == |cs|
    ensures i < |cs| ==>
              var line := Lines(cs, marks, t, r)[i];
              && line.name == cs[i]
              && line.weight == r.weights[cs[i]]
              && (line.suppressed <==> !Applies(cs[i], t, r))
              && (line.mark.Some? <==> !line.suppressed)
  {
    if cs != [] {
      EveryComponentIsListed(cs[0]);
      LinesInOrder(cs[1..], marks, t, r, if i > 0 then i - 1 else 0);
    }
  }

  /** The breakdown explains the total: all five components in order, a mark exactly where the
      component counts, and the shown marks out of the shown weights round to the total. */
  lemma {:induction false} BreakdownExplainsTheTotal(a: Answers, t: NoteType, r: Rubric, i: nat)
    requires Complete(r) && WeightsFit(r) && ComputeScore(a, t, r).Ok?
    ensures var s := ComputeScore(a, t, r).score;
      && |s.lines| == 5
      && (i < 5 ==> s.lines[i].name == COMPONENTS[i] && s.lines[i].weight == r.weights[COMPONENTS[i]]
                    && (s.lines[i].mark.Some? <==> Applies(COMPONENTS[i], t, r))
                    && (s.lines[i].suppressed <==> s.lines[i].mark.None?))
      && ShownWeights(s.lines) == s.denominator
      && Nearest(s.total, ShownMarks(s.lines) * 100, s.denominator)
  {
    hide AskedSet, BandOf, HalfUp, MarkFor, Problems, Nearest, Lines, WeightsFit;
    LinesAddUp(COMPONENTS, Marks(a, t, r), t, r);
    LinesInOrder(COMPONENTS, Marks(a, t, r), t, r, i);
    TotalIsTheNearestPercent(a, t, r);
  }

  /** Two different sums of marks never share a total. */
  lemma {:induction false} DistinctRawsShowDistinctTotals(a: Answers, b: Answers, t: NoteType, r: Rubric)
    requires Complete(r) && WeightsFit(r) && ComputeScore(a, t, r).Ok? && ComputeScore(b, t, r).Ok?
    ensures Raw(a, t, r) < Raw(b, t, r) <==> ComputeScore(a, t, r).score.total < ComputeScore(b, t, r).score.total
    ensures Raw(a, t, r) == Raw(b, t, r) <==> ComputeScore(a, t, r).score.total == ComputeScore(b, t, r).score.total
  {
    hide ComputeScore, Raw, AskedSet, BandOf, HalfUp;
    WhenScored(a, t, r);
    WhenScored(b, t, r);
    var d := Denominator(t, r);
    KeptWeighNoMore(COMPONENTS, t, r);
    if Raw(a, t, r) < Raw(b, t, r) { WholeStepShows(Raw(a, t, r) * 100, Raw(b, t, r) * 100, d); }
    if Raw(b, t, r) < Raw(a, t, r) { WholeStepShows(Raw(b, t, r) * 100, Raw(a, t, r) * 100, d); }
  }

  /** `b` answers the same checks and says yes wherever `a` does. */
  ghost predicate AtLeast(b: Answers, a: Answers) {
    b.Keys == a.Keys && forall c | c in a && a[c] :: b[c]
  }

  lemma {:induction false} CountsGrow(cs: seq<Check>, a: Answers, b: Answers)
    requires AtLeast(b, a)
    ensures CountTrue(cs, a) <= CountTrue(cs, b)
  {
    if cs != [] { CountsGrow(cs[1..], a, b); }
  }

  lemma {:induction false} MarksGrow(c: Component, a: Answers, b: Answers, r: Rubric)
    requires Complete(r) && AtLeast(b, a)
    ensures MarkFor(c, a, r) <= MarkFor(c, b, r)
  {
    var cs := r.checks[c];
    CountsGrow(cs, a, b);
    MarksStayWithinWeights(c, a, r);
    MarkTableIsAnEvenSplit(c, r.weights[c], |cs|, CountTrue(cs, a), CountTrue(cs, b));
  }

  function BandRank(b: Band): nat {
    match b case Poor => 0 case Fair => 1 case Good => 2 case Excellent => 3
  }

  lemma {:induction false} BandFound(bands: seq<(Band, int)>, total: int) returns (k: nat)
    requires bands != []
    ensures k < |bands| && BandOf(bands, total) == bands[k].0
    ensures forall i | 0 <= i < k :: bands[i].1 < total
    ensures total <= bands[k].1 || k == |bands| - 1
  {
    if total <= bands[0].1 || |bands| == 1 {
      k := 0;
    } else {
      var j := BandFound(bands[1..], total);
      k := j + 1;
      assert forall i | 0 < i < |bands| :: bands[i] == bands[1..][i - 1];
    }
  }

  /** For a checked rubric each band is an interval of totals. */
  lemma {:induction false} BandsAreIntervals(bands: seq<(Band, int)>, total: int)
    requires BandsFit(bands) && total <= 100
    ensures var k := BandRank(BandOf(bands, total));
      total <= bands[k].1 && forall i | 0 <= i < k :: bands[i].1 < total
  {
    var k := BandFound(bands, total);
    assert BandRank(BANDS[k]) == k;
  }

  /** What the startup check accepts of the bands. */
  lemma {:induction false} BandsFitExactlyWhen(bands: seq<(Band, int)>)
    ensures (BandsFit(bands) <==> exists a, b, c ::
      0 <= a < b < c < 100 && bands == [(Poor, a), (Fair, b), (Good, c), (Excellent, 100)])
  {
    if BandsFit(bands) {
      assert bands == [(Poor, bands[0].1), (Fair, bands[1].1), (Good, bands[2].1), (Excellent, 100)];
    }
  }

  /** Under a checked rubric each of the three actions is taken for some total. */
  lemma {:induction false} CheckedThresholdsSplit(r: Rubric)
    requires Checked(r)
    ensures exists total :: Decide.ActionFor(r.policy, total) == Decide.PromptClarification
    ensures exists total :: Decide.ActionFor(r.policy, total) == Decide.AcceptFlagPrompt
    ensures exists total :: Decide.ActionFor(r.policy, total) == Decide.AcceptSilent
  {
    hide WeightsFit, BandsFit, ChecksFit;
    assert Decide.ActionFor(r.policy, r.policy.flag - 1) == Decide.PromptClarification;
    assert Decide.ActionFor(r.policy, r.policy.flag) == Decide.AcceptFlagPrompt;
    assert Decide.ActionFor(r.policy, r.policy.accept) == Decide.AcceptSilent;
  }

  /** A higher total never has a lower band. */
  lemma {:induction false} BandsGrow(bands: seq<(Band, int)>, total: int, total': int)
    requires BandsFit(bands) && total <= total'
    ensures BandRank(BandOf(bands, total)) <= BandRank(BandOf(bands, total'))
  {
    var k := BandFound(bands, total);
    var k' := BandFound(bands, total');
    assert BandRank(BANDS[k]) == k && BandRank(BANDS[k']) == k';
  }

  function ActionRank(a: Decide.Action): nat {
    match a case PromptClarification => 0 case AcceptFlagPrompt => 1 case AcceptSilent => 2
  }

  function Verdict(p: Decide.Policy, total: int): Decide.EnforcementVerdict {
    Decide.Enforcement(p, Some(Decide.ActionFor(p, total)), None)
  }

  lemma {:induction false} RawGrows(a: Answers, b: Answers, t: NoteType, r: Rubric)
    requires Complete(r) && AtLeast(b, a)
    ensures forall c | c in Applicable(t, r) :: Marks(a, t, r)[c] <= Marks(b, t, r)[c]
    ensures Raw(a, t, r) <= Raw(b, t, r)
  {
    forall c | c in Applicable(t, r)
      ensures Marks(a, t, r)[c] <= Marks(b, t, r)[c]
    {
      MarksGrow(c, a, b, r);
    }
    SumMonotone(Applicable(t, r), Marks(a, t, r), Marks(b, t, r));
  }

  /** Turning any asked check to yes never lowers a mark, the total, the band or the action, and
      never turns allow into flag. */
  lemma {:induction false} MoreYesNeverCosts(a: Answers, b: Answers, t: NoteType, r: Rubric)
    requires Complete(r) && WeightsFit(r) && BandsFit(r.bands) && AtLeast(b, a) && ComputeScore(a, t, r).Ok?
    ensures ComputeScore(b, t, r).Ok?
    ensures var s, s' := ComputeScore(a, t, r).score, ComputeScore(b, t, r).score;
      && (forall c | c in Applicable(t, r) :: Marks(a, t, r)[c] <= Marks(b, t, r)[c])
      && s.total <= s'.total
      && BandRank(s.band) <= BandRank(s'.band)
      && ActionRank(Decide.ActionFor(r.policy, s.total)) <= ActionRank(Decide.ActionFor(r.policy, s'.total))
      && (Verdict(r.policy, s.total).Allow? ==> Verdict(r.policy, s'.total).Allow?)
  {
    hide ComputeScore, Raw, AskedSet, BandsFit, BandOf, BandRank, HalfUp, Denominator, Marks, Applicable;
    WhenScored(a, t, r);
    WhenScored(b, t, r);
    RawGrows(a, b, t, r);
    Monotone(Raw(a, t, r) * 100, Raw(b, t, r) * 100, Denominator(t, r));
    BandsGrow(r.bands, ComputeScore(a, t, r).score.total, ComputeScore(b, t, r).score.total);
  }

  /** Valid answers are scored exactly when some component that counts for the type has a
      weight. */
  lemma {:induction false} ScoredExactlyWhenSomethingCounts(a: Answers, t: NoteType, r: Rubric)
    requires Complete(r) && a.Keys == AskedSet(t, r)
    ensures ComputeScore(a, t, r).Ok? <==> exists c: Component :: Applies(c, t, r) && r.weights[c] != 0
  {
    NoProblemsExactlyWhenAsked(AskedSet(t, r), a.Keys);
    SumVanishes(Applicable(t, r), r.weights);
    forall c: Component
      ensures c in Applicable(t, r) <==> Applies(c, t, r)
    {
      EveryComponentIsListed(c);
    }
  }

  /** What the startup check asks of the weights is enough for every type that suppresses
      nothing ... */
  lemma {:induction false} CheckedIsEnoughWithoutSuppression(a: Answers, t: NoteType, r: Rubric)
    requires Complete(r) && WeightsFit(r) && a.Keys == AskedSet(t, r)
    requires t in r.suppressed ==> r.suppressed[t] == {}
    ensures ComputeScore(a, t, r).Ok?
  {
    ScoredExactlyWhenSomethingCounts(a, t, r);
    var c: Component :| r.weights[c] != 0 && (c != DealSpecifics || r.dealSpecifics);
    assert Applies(c, t, r);
  }

  ghost function YesPlaces(cs: seq<Check>, a: Answers): set<nat> {
    set i: nat | i < |cs| && cs[i] in a && a[cs[i]]
  }

  lemma {:induction false} CountTrueJoins(cs: seq<Check>, ds: seq<Check>, a: Answers)
    ensures CountTrue(cs + ds, a) == CountTrue(cs, a) + CountTrue(ds, a)
  {
    if cs == [] {
      assert cs + ds == ds;
    } else {
      CountTrueJoins(cs[1..], ds, a);
      assert (cs + ds)[1..] == cs[1..] + ds;
    }
  }

  lemma {:induction false} TrueAreTheYesPlaces(cs: seq<Check>, a: Answers)
    ensures CountTrue(cs, a) == |YesPlaces(cs, a)|
  {
    if cs == [] {
      assert YesPlaces(cs, a) == {};
    } else {
      var n := |cs| - 1;
      TrueAreTheYesPlaces(cs[..n], a);
      CountTrueJoins(cs[..n], [cs[n]], a);
      assert cs[..n] + [cs[n]] == cs && [cs[n]][1..] == [];
      assert CountTrue([cs[n]], a) == (if cs[n] in a && a[cs[n]] then 1 else 0) + CountTrue([], a);
      assert YesPlaces(cs, a) == YesPlaces(cs[..n], a) + (if cs[n] in a && a[cs[n]] then {n} else {});
    }
  }

  /** Under any rubric a mark is the share of its weight that the yes answers are of its checks; for the
      next step closure earns it all, and two of its checks do. */
  lemma {:induction false} MarkIsTheShareOfYes(c: Component, a: Answers, r: Rubric)
    requires Complete(r)
    ensures var weight, checks := r.weights[c], |r.checks[c]|; var yes := |YesPlaces(r.checks[c], a)|;
      && (c != NextStepDate && checks > 0 ==> Nearest(MarkFor(c, a, r), weight * yes, checks))
      && (c == NextStepDate && ((NsClosure in a && a[NsClosure]) || yes >= 2) ==> MarkFor(c, a, r) == weight)
      && (c == NextStepDate && !(NsClosure in a && a[NsClosure]) && yes <= 2 ==>
            Nearest(MarkFor(c, a, r), weight * yes, 2))
  {
    hide MarkTable, Nearest, YesPlaces, CountTrue;
    TrueAreTheYesPlaces(r.checks[c], a);
    EveryCheckIsWorthTheSame(c, r.weights[c], |r.checks[c]|, CountTrue(r.checks[c], a));
  }

  lemma {:induction false} OnceIn(cs: seq<Check>, x: Check, i: nat)
    requires i < |cs| && cs[i] == x && forall j | 0 <= j < |cs| && j != i :: cs[j] != x
    ensures multiset(cs)[x] == 1
  {
    assert cs == cs[..i] + [x] + cs[i + 1..];
    assert x !in cs[..i] && x !in cs[i + 1..];
  }

  function PlaceOf(x: Check): nat {
    match x
    case WhOutcome => 0 case WhAction => 1 case CsPresent => 2 case CsOwnTerms => 3
    case NsAction => 4 case NsDate => 5 case NsClosure => 6
    case DsFigures => 7 case DsSubject => 8 case DsTiming => 9
    case ClReadable => 10 case ClSubstance => 11
  }

  lemma {:induction false} EveryCheckIsListedOnce(x: Check)
    ensures multiset(CHECKS)[x] == 1
  {
    assert forall j | 0 <= j < |CHECKS| :: PlaceOf(CHECKS[j]) == j;
    assert CHECKS[PlaceOf(x)] == x;
    OnceIn(CHECKS, x, PlaceOf(x));
  }

  /** What the startup check is for: under a checked rubric every check belongs to exactly one component,
      and the answers to a type that suppresses nothing can be scored. */
  lemma {:induction false} CheckedRubricsScore(a: Answers, t: NoteType, r: Rubric, x: Check)
    requires Checked(r)
    ensures exists c: Component :: x in r.checks[c] && forall d: Component :: x in r.checks[d] ==> d == c
    ensures a.Keys == AskedSet(t, r) && (t in r.suppressed ==> r.suppressed[t] == {}) ==> ComputeScore(a, t, r).Ok?
  {
    if a.Keys == AskedSet(t, r) && (t in r.suppressed ==> r.suppressed[t] == {}) {
      CheckedIsEnoughWithoutSuppression(a, t, r);
    }
    CheckedChecksAreSplit(r, x);
  }

  function Times(x: Check, cs: seq<Check>): nat { multiset(cs)[x] }

  lemma {:induction false} TimesOfFive(x: Check, a: seq<Check>, b: seq<Check>, c: seq<Check>, d: seq<Check>, e: seq<Check>)
    ensures Times(x, a + (b + (c + (d + e)))) == Times(x, a) + Times(x, b) + Times(x, c) + Times(x, d) + Times(x, e)
  {}

  lemma {:induction false} CheckedChecksAreSplit(r: Rubric, x: Check)
    requires Checked(r)
    ensures exists c: Component :: x in r.checks[c] && forall d: Component :: x in r.checks[d] ==> d == c
  {
    hide CHECKS, COMPONENTS, AllChecks, WeightsFit, BandsFit;
    ChecksInOrder(r.checks);
    EveryCheckIsListedOnce(x);
    TimesOfFive(x, r.checks[WhatHappened], r.checks[ClientSaid], r.checks[NextStepDate], r.checks[DealSpecifics],
                r.checks[Clarity]);
    assert Times(x, AllChecks(COMPONENTS, r.checks)) == 1;
    OneOfFive(r, x);
  }

  lemma {:induction false} OneOfFive(r: Rubric, x: Check)
    requires Complete(r)
    requires Times(x, r.checks[WhatHappened]) + Times(x, r.checks[ClientSaid]) + Times(x, r.checks[NextStepDate])
      + Times(x, r.checks[DealSpecifics]) + Times(x, r.checks[Clarity]) == 1
    ensures exists c: Component :: x in r.checks[c] && forall d: Component :: x in r.checks[d] ==> d == c
  {
    assert forall c: Component :: x in r.checks[c] <==> Times(x, r.checks[c]) > 0;
    var c := if x in r.checks[WhatHappened] then WhatHappened
             else if x in r.checks[ClientSaid] then ClientSaid
             else if x in r.checks[NextStepDate] then NextStepDate
             else if x in r.checks[DealSpecifics] then DealSpecifics
             else Clarity;
    assert x in r.checks[c];
    forall d: Component | x in r.checks[d]
      ensures d == c
    {
      assert Times(x, r.checks[d]) > 0 && Times(x, r.checks[c]) > 0;
      match d { case WhatHappened => case ClientSaid => case NextStepDate => case DealSpecifics => case Clarity => }
    }
  }

  predicate Keyed(weights: map<Component, int>) {
    forall c: Component :: c in weights && weights[c] >= 0
  }

  function ShippedChecks(c: Component): seq<Check> {
    match c
    case WhatHappened => [WhOutcome, WhAction]
    case ClientSaid => [CsPresent, CsOwnTerms]
    case NextStepDate => [NsAction, NsDate, NsClosure]
    case DealSpecifics => [DsFigures, DsSubject, DsTiming]
    case Clarity => [ClReadable, ClSubstance]
  }

  /** The rubric shipped, but for its weights. */
  function Shipped(weights: map<Component, int>): (r: Rubric)
    requires Keyed(weights)
    ensures Complete(r)
  {
    Rubric(
      weights,
      [(Poor, 39), (Fair, 69), (Good, 84), (Excellent, 100)],
      map c: Component | true :: ShippedChecks(c),
      map[NoContact := {WhatHappened, ClientSaid, DealSpecifics}],
      false,
      Decide.Policy(70, 40, PromptSlots.Limits(1, 21600, 3, 3600, 10, 86400), Decide.Advisory))
  }

  function Yes(a: Answers, c: Check): nat { if c in a && a[c] then 1 else 0 }

  /** The shipped marks, component by component: halves of the weight, thirds for the deal, and
      for the next step closure or action and date earn it all. */
  lemma {:induction false} ShippedMarks(weights: map<Component, int>, a: Answers)
    requires Keyed(weights)
    ensures var r := Shipped(weights);
      && MarkFor(WhatHappened, a, r) == HalfUp(weights[WhatHappened] * (Yes(a, WhOutcome) + Yes(a, WhAction)), 2)
      && MarkFor(ClientSaid, a, r) == HalfUp(weights[ClientSaid] * (Yes(a, CsPresent) + Yes(a, CsOwnTerms)), 2)
      && MarkFor(Clarity, a, r) == HalfUp(weights[Clarity] * (Yes(a, ClReadable) + Yes(a, ClSubstance)), 2)
      && (MarkFor(DealSpecifics, a, r)
          == HalfUp(weights[DealSpecifics] * (Yes(a, DsFigures) + Yes(a, DsSubject) + Yes(a, DsTiming)), 3))
      && (MarkFor(NextStepDate, a, r)
          == if NsClosure in a && a[NsClosure] then weights[NextStepDate]
             else HalfUp(weights[NextStepDate] * (Yes(a, NsAction) + Yes(a, NsDate)), 2))
  {
    hide MarkFor, HalfUp, CountTrue;
    var r := Shipped(weights);
    TrueOfTwo(a, WhOutcome, WhAction);
    TrueOfTwo(a, CsPresent, CsOwnTerms);
    TrueOfTwo(a, ClReadable, ClSubstance);
    TrueOfThree(a, NsAction, NsDate, NsClosure);
    TrueOfThree(a, DsFigures, DsSubject, DsTiming);
    MarkIsTheSplit(WhatHappened, a, r);
    MarkIsTheSplit(ClientSaid, a, r);
    MarkIsTheSplit(Clarity, a, r);
    MarkIsTheSplit(DealSpecifics, a, r);
    MarkIsTheSplit(NextStepDate, a, r);
  }

  lemma {:induction false} MarkIsTheSplit(c: Component, a: Answers, r: Rubric)
    requires Complete(r)
    ensures var full := FullAt(c, |r.checks[c]|); var k := CountTrue(r.checks[c], a);
      MarkFor(c, a, r) == if c.NextStepDate? && Says(a, NsClosure) then r.weights[c]
                          else HalfUp(r.weights[c] * (if k <= full then k else full), full)
  {
    hide HalfUp, HalfUpDoubled;
    Marked(r.weights[c], FullAt(c, |r.checks[c]|), CountTrue(r.checks[c], a));
  }

  lemma {:induction false} TrueOfTwo(a: Answers, x: Check, y: Check)
    ensures CountTrue([x, y], a) == Yes(a, x) + Yes(a, y)
  {
    assert [x, y][1..] == [y] && [y][1..] == [];
    assert CountTrue([y], a) == Yes(a, y) + CountTrue([], a);
  }

  lemma {:induction false} TrueOfThree(a: Answers, x: Check, y: Check, z: Check)
    ensures CountTrue([x, y, z], a) == Yes(a, x) + Yes(a, y) + Yes(a, z)
  {
    assert [x, y, z][1..] == [y, z];
    TrueOfTwo(a, y, z);
  }

  lemma {:induction false} ShippedAsksAbout(weights: map<Component, int>, t: NoteType, x: Check)
    requires Keyed(weights)
    ensures (x in AskedSet(t, Shipped(weights)) <==> exists c: Component ::
      x in ShippedChecks(c) && c != DealSpecifics && (t == NoContact ==> c == NextStepDate || c == Clarity))
  {
    hide AskedSet, ShippedChecks;
    var r := Shipped(weights);
    AskedExactlyWhenItsComponentCounts(t, r, x);
    forall c: Component
      ensures r.checks[c] == ShippedChecks(c)
      ensures (t in r.suppressed ==> c !in r.suppressed[t]) <==> (t == NoContact ==> c == NextStepDate || c == Clarity)
    {}
  }

  lemma {:induction false} ShippedChecksAre(x: Check)
    ensures x in ShippedChecks(WhatHappened) <==> x in {WhOutcome, WhAction}
    ensures x in ShippedChecks(ClientSaid) <==> x in {CsPresent, CsOwnTerms}
    ensures x in ShippedChecks(NextStepDate) <==> x in {NsAction, NsDate, NsClosure}
    ensures x in ShippedChecks(Clarity) <==> x in {ClReadable, ClSubstance}
  {}

  /** Under the rubric shipped a no-contact note is asked about its next step and its clarity, and any
      other about all but the deal. */
  lemma {:induction false} ShippedAsks(weights: map<Component, int>, t: NoteType)
    requires Keyed(weights)
    ensures AskedSet(t, Shipped(weights))
         == if t == NoContact then {NsAction, NsDate, NsClosure, ClReadable, ClSubstance}
            else {WhOutcome, WhAction, CsPresent, CsOwnTerms, NsAction, NsDate, NsClosure, ClReadable, ClSubstance}
  {
    hide AskedSet, ShippedChecks, Shipped;
    forall x: Check
      ensures x in AskedSet(t, Shipped(weights)) <==>
        (t != NoContact && x in {WhOutcome, WhAction, CsPresent, CsOwnTerms})
        || x in {NsAction, NsDate, NsClosure, ClReadable, ClSubstance}
    {
      ShippedAsksAbout(weights, t, x);
      ShippedChecksAre(x);
    }
  }

  /** And its two thresholds cut between its bands: a total is accepted silently exactly in the two upper
      bands, with a flag in the second, and sent back in the lowest. */
  lemma {:induction false} ShippedActionsFollowTheBands(weights: map<Component, int>, total: int)
    requires Keyed(weights) && total <= 100
    ensures var r := Shipped(weights); var band := BandOf(r.bands, total);
      && (Decide.ActionFor(r.policy, total) == Decide.AcceptSilent <==> band == Good || band == Excellent)
      && (Decide.ActionFor(r.policy, total) == Decide.AcceptFlagPrompt <==> band == Fair)
      && (Decide.ActionFor(r.policy, total) == Decide.PromptClarification <==> band == Poor)
  {
    var r := Shipped(weights);
    ShippedBandsFit();
    BandsAreIntervals(r.bands, total);
  }

  /** With the limits shipped, whatever is asked and in whatever order: any six hours hold at most two
      questions about one note, and any hour at most six, any day at most twenty, to one person. */
  lemma {:induction false} ShippedQuestionsAreFew(weights: map<Component, int>, asks: seq<PromptSlots.Ask>, note: nat,
                                        subject: nat, from: nat)
    requires Keyed(weights) && PromptSlots.Ordered(asks)
    ensures var l := Shipped(weights).policy.limits;
      && |PromptSlots.InSpan(PromptSlots.Claims(l, asks, PromptSlots.Attempts(note)), from, 6 * 3600)| <= 2
      && |PromptSlots.InSpan(PromptSlots.Claims(l, asks, PromptSlots.Hourly(subject)), from, 3600)| <= 6
      && |PromptSlots.InSpan(PromptSlots.Claims(l, asks, PromptSlots.Daily(subject)), from, 24 * 3600)| <= 20
  {
    hide PromptSlots.InSpan, PromptSlots.Claims;
    var l := Shipped(weights).policy.limits;
    PromptSlots.SlidingWindowBound(l, asks, PromptSlots.Attempts(note), from);
    PromptSlots.SlidingWindowBound(l, asks, PromptSlots.Hourly(subject), from);
    PromptSlots.SlidingWindowBound(l, asks, PromptSlots.Daily(subject), from);
  }

  predicate Weighed(weights: map<Component, int>) {
    && Keyed(weights)
    && Sum(COMPONENTS, weights) == 100
    && weights[DealSpecifics] < 100
  }

  lemma {:induction false} ChecksInOrder(checks: map<Component, seq<Check>>)
    requires forall c: Component :: c in checks
    ensures AllChecks(COMPONENTS, checks) == checks[WhatHappened] + (checks[ClientSaid]
         + (checks[NextStepDate] + (checks[DealSpecifics] + checks[Clarity])))
  {
    assert [DealSpecifics, Clarity][1..] == [Clarity];
    assert [NextStepDate, DealSpecifics, Clarity][1..] == [DealSpecifics, Clarity];
    assert [ClientSaid, NextStepDate, DealSpecifics, Clarity][1..] == [NextStepDate, DealSpecifics, Clarity];
    assert COMPONENTS[1..] == [ClientSaid, NextStepDate, DealSpecifics, Clarity];
    assert AllChecks([Clarity], checks) == checks[Clarity] + AllChecks([], checks) == checks[Clarity];
    assert AllChecks([DealSpecifics, Clarity], checks) == checks[DealSpecifics] + checks[Clarity];
    assert AllChecks([NextStepDate, DealSpecifics, Clarity], checks)
        == checks[NextStepDate] + (checks[DealSpecifics] + checks[Clarity]);
  }

  lemma {:induction false} ShippedChecksFit(weights: map<Component, int>)
    requires Keyed(weights)
    ensures ChecksFit(Shipped(weights))
  {
    ChecksInOrder(Shipped(weights).checks);
    assert CHECKS == ShippedChecks(WhatHappened) + (ShippedChecks(ClientSaid)
        + (ShippedChecks(NextStepDate) + (ShippedChecks(DealSpecifics) + ShippedChecks(Clarity))));
  }

  lemma {:induction false} ShippedBandsFit()
    ensures BandsFit([(Poor, 39), (Fair, 69), (Good, 84), (Excellent, 100)])
  {}

  lemma {:induction false} SomethingWeighs(weights: map<Component, int>)
    requires Weighed(weights)
    ensures exists c: Component :: weights[c] != 0 && c != DealSpecifics
  {
    hide Sum;
    SumOfFive(weights);
    var c := if weights[WhatHappened] != 0 then WhatHappened
             else if weights[ClientSaid] != 0 then ClientSaid
             else if weights[NextStepDate] != 0 then NextStepDate
             else Clarity;
    assert weights[c] != 0;
  }

  lemma {:induction false} ShippedIsChecked(weights: map<Component, int>)
    requires Weighed(weights)
    ensures Checked(Shipped(weights))
  {
    hide AllChecks, ChecksFit, Sum, BandsFit, ShippedChecks;
    ShippedChecksFit(weights);
    ShippedBandsFit();
    SomethingWeighs(weights);
  }

  /** ... and not for one that does.  A tenant that keeps the shipped tables and passes the
      check can score no-contact notes if and only if it gives weight to the next step or to
      clarity. */
  lemma {:induction false} NoContactNeedsWeight(weights: map<Component, int>, a: Answers)
    requires Weighed(weights) && a.Keys == AskedSet(NoContact, Shipped(weights))
    ensures Checked(Shipped(weights))
    ensures (ComputeScore(a, NoContact, Shipped(weights)).Ok?
             <==> weights[NextStepDate] != 0 || weights[Clarity] != 0)
  {
    hide ComputeScore, Checked, Sum, AskedSet;
    ShippedIsChecked(weights);
    ScoredExactlyWhenSomethingCounts(a, NoContact, Shipped(weights));
    forall c: Component
      ensures Applies(c, NoContact, Shipped(weights)) <==> c.NextStepDate? || c.Clarity?
    {}
  }

  /** Such a tenant passes the check and cannot score any no-contact note. */
  lemma {:induction false} CheckedIsNotEnoughForNoContact(a: Answers)
    ensures exists weights :: Weighed(weights) && !ComputeScore(a, NoContact, Shipped(weights)).Ok?
  {
    var w: map<Component, int> := map c: Component | true :: if c.WhatHappened? then 100 else 0;
    SumOfFive(w);
    var r := Shipped(w);
    if a.Keys == AskedSet(NoContact, r) {
      NoContactNeedsWeight(w, a);
    } else {
      WhenScored(a, NoContact, r);
    }
  }
}
