/** The evaluation run: hand marks against model answers, figure by figure, tallied overall, by
    note type and by language. */
module Eval {
  import opened Options
  import opened Scoring
  import opened Measures
  import Groups

  datatype Missing = NoWhatHappened | NoClientSaid | NoNextStepWithDate

  datatype Figure = Classify | IsVague | Components | Checks | BandFigure

  const FIGURES: seq<Figure> := [Classify, IsVague, Components, Checks, BandFigure]

  datatype Language = Arabic | English | Mixed

  /** One hand-marked note.  What is not marked is absent; check marks are in file order. */
  datatype EvalRow = EvalRow(
    id: string, text: string,
    kind: Option<Kind>, vague: Option<bool>, missing: Option<set<Missing>>,
    checks: Option<seq<(Check, bool)>>)

  /** What the passes said.  A pass that did not run said nothing. */
  datatype PassRun = PassRun(
    kind: Option<Kind>, vague: Option<bool>, missing: Option<set<Missing>>,
    checks: Option<Answers>, band: Option<Band>)

  /** Either side of a comparison. */
  datatype Answer = Nothing | OfKind(kind: Kind) | OfBool(yes: bool) | OfSet(missing: set<Missing>) | OfBand(band: Band)

  datatype Label = Whole(figure: Figure) | CheckAnswer(check: Check)

  datatype Disagreement = Disagreement(item: Label, expected: Answer, actual: Answer)

  datatype Pair = Pair(matched: nat, counted: nat)

  datatype Outcome = Outcome(
    id: string, language: Language, kind: Option<Kind>,
    figures: map<Figure, Pair>, disagreements: seq<Disagreement>, bandNotComputable: bool)

  /** A rubric that leaves no denominator makes the run stop. */
  datatype Try<+T> = Done(value: T) | Raised

  predicate IsArabic(c: char) { '\U{0600}' <= c <= '\U{06FF}' }

  predicate IsLatin(c: char) { 'A' <= c <= 'Z' || 'a' <= c <= 'z' }

  function LanguageOf(text: string): Language {
    var arabic := exists i | 0 <= i < |text| :: IsArabic(text[i]);
    var latin := exists i | 0 <= i < |text| :: IsLatin(text[i]);
    if arabic && latin then Mixed else if arabic then Arabic else English
  }

  function AsAnswers(marks: seq<(Check, bool)>): Answers {
    if marks == [] then map[]
    else AsAnswers(marks[..|marks| - 1])[marks[|marks| - 1].0 := marks[|marks| - 1].1]
  }

  /** The band the marks imply; nothing when they are not the marks of that type. */
  function ExpectedBand(row: EvalRow, r: Rubric): Try<Option<Band>>
    requires Complete(r)
  {
    if row.checks.None? || row.kind.None? || row.kind.value.Unclassifiable? then Done(None)
    else
      var marks, t := AsAnswers(row.checks.value), row.kind.value.noteType;
      if marks.Keys != AskedSet(t, r) then Done(None)
      else
        var scored := ComputeScore(marks, t, r);
        if scored.Ok? then Done(Some(scored.score.band)) else Raised
  }

  function KindAnswer(k: Option<Kind>): Answer { if k.Some? then OfKind(k.value) else Nothing }

  function BoolAnswer(b: Option<bool>): Answer { if b.Some? then OfBool(b.value) else Nothing }

  function SetAnswer(s: Option<set<Missing>>): Answer { if s.Some? then OfSet(s.value) else Nothing }

  function BandAnswer(b: Option<Band>): Answer { if b.Some? then OfBand(b.value) else Nothing }

  function Said(run: PassRun, check: Check): Answer {
    if run.checks.Some? && check in run.checks.value then OfBool(run.checks.value[check]) else Nothing
  }

  // ----- one note --------------------------------------------------------------------------

  /** A figure is counted exactly when the human marked it. */
  function Recorded(o: Outcome, f: Figure, expected: Answer, actual: Answer): Outcome {
    if expected.Nothing? then o.(figures := o.figures[f := Pair(0, 0)])
    else if expected == actual then o.(figures := o.figures[f := Pair(1, 1)])
    else o.(figures := o.figures[f := Pair(0, 1)],
            disagreements := o.disagreements + [Disagreement(Whole(f), expected, actual)])
  }

  function MatchedChecks(marks: seq<(Check, bool)>, run: PassRun): (n: nat)
    ensures n <= |marks|
  {
    if marks == [] then 0
    else
      var (check, expected) := marks[|marks| - 1];
      MatchedChecks(marks[..|marks| - 1], run) + if Said(run, check) == OfBool(expected) then 1 else 0
  }

  function DifferingChecks(marks: seq<(Check, bool)>, run: PassRun): seq<Disagreement> {
    if marks == [] then []
    else
      var (check, expected) := marks[|marks| - 1];
      DifferingChecks(marks[..|marks| - 1], run)
      + if Said(run, check) == OfBool(expected) then []
        else [Disagreement(CheckAnswer(check), OfBool(expected), Said(run, check))]
  }

  function CheckMarks(row: EvalRow): seq<(Check, bool)> { if row.checks.Some? then row.checks.value else [] }

  /** The three note-level figures. */
  function NoteFigures(row: EvalRow, run: PassRun): Outcome {
    var o := Outcome(row.id, LanguageOf(row.text), if row.kind.Some? then row.kind else run.kind, map[], [], false);
    var classified := Recorded(o, Classify, KindAnswer(row.kind), KindAnswer(run.kind));
    var judged := Recorded(classified, IsVague, BoolAnswer(row.vague), BoolAnswer(run.vague));
    Recorded(judged, Components, SetAnswer(row.missing), SetAnswer(run.missing))
  }

  function WithChecks(o: Outcome, marks: seq<(Check, bool)>, run: PassRun): Outcome {
    o.(figures := o.figures[Checks := Pair(MatchedChecks(marks, run), |marks|)],
       disagreements := o.disagreements + DifferingChecks(marks, run))
  }

  function Compare(row: EvalRow, run: PassRun, r: Rubric): Try<Outcome>
    requires Complete(r)
  {
    var o := WithChecks(NoteFigures(row, run), CheckMarks(row), run);
    match ExpectedBand(row, r)
    case Raised => Raised
    case Done(band) =>
      var banded := Recorded(o, BandFigure, BandAnswer(band), BandAnswer(run.band));
      Done(banded.(bandNotComputable := band.None? && row.checks.Some?))
  }

  class NoteOutcome {
    const id: string
    const language: Language
    const kind: Option<Kind>
    var figures: map<Figure, Pair>
    var disagreements: seq<Disagreement>
    var bandNotComputable: bool

    function View(): Outcome
      reads this
    {
      Outcome(id, language, kind, figures, disagreements, bandNotComputable)
    }

    constructor (id: string, language: Language, kind: Option<Kind>)
      ensures View() == Outcome(id, language, kind, map[], [], false)
    {
      this.id, this.language, this.kind := id, language, kind;
      figures, disagreements, bandNotComputable := map[], [], false;
    }

    method Record(f: Figure, expected: Answer, actual: Answer)
      modifies this
      ensures View() == Recorded(old(View()), f, expected, actual)
    {
      if expected.Nothing? {
        figures := figures[f := Pair(0, 0)];
        return;
      }
      var matched := expected == actual;
      figures := figures[f := Pair(if matched then 1 else 0, 1)];
      if !matched {
        disagreements := disagreements + [Disagreement(Whole(f), expected, actual)];
      }
    }

    /** One comparison a check the human marked; a check never asked is a disagreement. */
    method CompareChecks(marks: seq<(Check, bool)>, run: PassRun) returns (agreement: Pair)
      modifies this
      ensures agreement == Pair(MatchedChecks(marks, run), |marks|)
      ensures View() == old(View()).(disagreements := old(disagreements) + DifferingChecks(marks, run))
    {
      var matched := 0;
      for i := 0 to |marks|
        invariant matched == MatchedChecks(marks[..i], run)
        invariant View() == old(View()).(disagreements := old(disagreements) + DifferingChecks(marks[..i], run))
      {
        assert marks[..i + 1][..i] == marks[..i];
        var (check, expected) := marks[i];
        var actual := Said(run, check);
        if actual == OfBool(expected) {
          matched := matched + 1;
        } else {
          disagreements := disagreements + [Disagreement(CheckAnswer(check), OfBool(expected), actual)];
        }
      }
      assert marks[..|marks|] == marks;
      agreement := Pair(matched, |marks|);
    }
  }

  method CompareNote(row: EvalRow, run: PassRun, r: Rubric) returns (outcome: Try<Outcome>)
    requires Complete(r)
    ensures outcome == Compare(row, run, r)
  {
    var o := new NoteOutcome(row.id, LanguageOf(row.text), if row.kind.Some? then row.kind else run.kind);
    o.Record(Classify, KindAnswer(row.kind), KindAnswer(run.kind));
    o.Record(IsVague, BoolAnswer(row.vague), BoolAnswer(run.vague));
    o.Record(Components, SetAnswer(row.missing), SetAnswer(run.missing));
    var agreement := o.CompareChecks(CheckMarks(row), run);
    o.figures := o.figures[Checks := agreement];
    var band := ExpectedBand(row, r);
    if band.Raised? {
      return Raised;
    }
    o.Record(BandFigure, BandAnswer(band.value), BandAnswer(run.band));
    o.bandNotComputable := band.value.None? && row.checks.Some?;
    return Done(o.View());
  }

  // ----- all notes -------------------------------------------------------------------------

  class Tally {
    var matched: nat
    var counted: nat

    constructor ()
      ensures matched == 0 && counted == 0
    {
      matched, counted := 0, 0;
    }

    method Add(matched: nat, counted: nat)
      modifies this
      ensures this.matched == old(this.matched) + matched
      ensures this.counted == old(this.counted) + counted
    {
      this.matched := this.matched + matched;
      this.counted := this.counted + counted;
    }
  }

  /** Whose tallies: everybody's, one note type's, one language's. */
  datatype Group = Overall | OfType(kind: Option<Kind>) | OfLanguage(language: Language)

  datatype Slot = Slot(group: Group, figure: Figure)

  predicate Counts(g: Group, o: Outcome) {
    match g
    case Overall => true
    case OfType(k) => o.kind == k
    case OfLanguage(l) => o.language == l
  }

  function Plus(p: Pair, q: Pair): Pair { Pair(p.matched + q.matched, p.counted + q.counted) }

  function Contribution(slot: Slot, o: Outcome): Pair {
    if Counts(slot.group, o) && slot.figure in o.figures then o.figures[slot.figure] else Pair(0, 0)
  }

  /** What a tally must hold after these outcomes. */
  function Tallied(outcomes: seq<Outcome>, slot: Slot): Pair {
    if outcomes == [] then Pair(0, 0)
    else Plus(Tallied(outcomes[..|outcomes| - 1], slot), Contribution(slot, outcomes[|outcomes| - 1]))
  }

  predicate Seen(outcomes: seq<Outcome>, g: Group) {
    g.Overall? || exists i | 0 <= i < |outcomes| :: Counts(g, outcomes[i])
  }

  lemma {:induction false} UnseenHoldsNothing(outcomes: seq<Outcome>, slot: Slot)
    requires !Seen(outcomes, slot.group)
    ensures Tallied(outcomes, slot) == Pair(0, 0)
  {
    if outcomes != [] {
      var front := outcomes[..|outcomes| - 1];
      assert forall i | 0 <= i < |front| :: front[i] == outcomes[i];
      UnseenHoldsNothing(front, slot);
      assert !Counts(slot.group, outcomes[|outcomes| - 1]);
    }
  }

  lemma {:induction false} SeenOneMore(outcomes: seq<Outcome>, o: Outcome, g: Group)
    ensures Seen(outcomes + [o], g) <==> Seen(outcomes, g) || Counts(g, o)
  {
    var all := outcomes + [o];
    assert all[|outcomes|] == o && forall i | 0 <= i < |outcomes| :: all[i] == outcomes[i];
    if Seen(outcomes, g) && !g.Overall? {
      var i :| 0 <= i < |outcomes| && Counts(g, outcomes[i]);
      assert Counts(g, all[i]);
    }
  }

  lemma {:induction false} TalliedOneMore(outcomes: seq<Outcome>, o: Outcome, slot: Slot)
    ensures Tallied(outcomes + [o], slot) == Plus(Tallied(outcomes, slot), Contribution(slot, o))
  {
    assert (outcomes + [o])[..|outcomes|] == outcomes;
  }

  /** A group has all of its tallies or none. */
  ghost predicate Even(keys: set<Slot>) {
    forall slot, f :: slot in keys ==> Slot(slot.group, f) in keys
  }

  function Five(g: Group): set<Slot> { set f | f in FIGURES[..|FIGURES|] :: Slot(g, f) }

  function Opened(v: map<Slot, Pair>, g: Group): map<Slot, Pair> {
    map slot | slot in v.Keys + Five(g) :: if slot in v then v[slot] else Pair(0, 0)
  }

  function OpenedUpTo(v: map<Slot, Pair>, g: Group, i: nat): map<Slot, Pair>
    requires i <= |FIGURES|
  {
    if i == 0 then v else OpenedUpTo(v, g, i - 1)[Slot(g, FIGURES[i - 1]) := Pair(0, 0)]
  }

  lemma {:induction false} OpenedKeys(v: map<Slot, Pair>, g: Group, i: nat)
    requires i <= |FIGURES|
    ensures OpenedUpTo(v, g, i).Keys == v.Keys + set f | f in FIGURES[..i] :: Slot(g, f)
    ensures forall slot | slot in v && slot.group != g :: OpenedUpTo(v, g, i)[slot] == v[slot]
    ensures forall f | f in FIGURES[..i] :: OpenedUpTo(v, g, i)[Slot(g, f)] == Pair(0, 0)
  {
    if i > 0 {
      OpenedKeys(v, g, i - 1);
      assert FIGURES[..i] == FIGURES[..i - 1] + [FIGURES[i - 1]];
    }
  }

  lemma {:induction false} OpenedSoFar(v: map<Slot, Pair>, g: Group, i: nat)
    requires i < |FIGURES| && Even(v.Keys) && Slot(g, Classify) !in v
    ensures Slot(g, FIGURES[i]) !in OpenedUpTo(v, g, i)
    ensures OpenedUpTo(v, g, i + 1) == OpenedUpTo(v, g, i)[Slot(g, FIGURES[i]) := Pair(0, 0)]
  {
    hide OpenedUpTo;
    OpenedKeys(v, g, i);
    EveryFigureIsListed();
    assert FIGURES[i] !in FIGURES[..i];
    assert Slot(g, FIGURES[i]) in v ==> Slot(g, Classify) in v;
    OpenedStep(v, g, i);
  }

  lemma {:induction false} OpenedStep(v: map<Slot, Pair>, g: Group, i: nat)
    requires i < |FIGURES|
    ensures OpenedUpTo(v, g, 0) == v
    ensures OpenedUpTo(v, g, i + 1) == OpenedUpTo(v, g, i)[Slot(g, FIGURES[i]) := Pair(0, 0)]
  {}

  lemma {:induction false} OpenedAll(v: map<Slot, Pair>, g: Group)
    requires Even(v.Keys)
    ensures OpenedUpTo(v, g, 0) == v && Even(Opened(v, g).Keys)
    ensures Opened(v, g) == if Slot(g, Classify) in v then v else OpenedUpTo(v, g, |FIGURES|)
  {
    hide OpenedUpTo;
    OpenedStep(v, g, 0);
    OpenedKeys(v, g, |FIGURES|);
    EveryFigureIsListed();
    forall f: Figure
      ensures Slot(g, f) in Five(g)
      ensures Slot(g, f) in v <==> Slot(g, Classify) in v
    {}
  }

  lemma {:induction false} OpenedFirst()
    ensures forall slot :: slot in Opened(map[], Overall) <==> Seen([], slot.group)
    ensures forall slot | slot in Opened(map[], Overall) :: Opened(map[], Overall)[slot] == Tallied([], slot)
  {
    EveryFigureIsListed();
    forall slot: Slot
      ensures slot in Opened(map[], Overall) <==> slot.group.Overall?
    {
      assert slot.group.Overall? ==> slot == Slot(Overall, slot.figure);
    }
  }

  class Summary {
    /** The three dictionaries of tallies as one. */
    var tallies: map<Slot, Tally>
    var outcomes: seq<Outcome>

    /** No two slots share a tally. */
    ghost predicate Valid()
      reads this
    {
      forall p, q :: p in tallies && q in tallies && p != q ==> tallies[p] != tallies[q]
    }

    ghost function View(): map<Slot, Pair>
      reads this, tallies.Values
    {
      map p | p in tallies :: Pair(tallies[p].matched, tallies[p].counted)
    }

    constructor ()
      ensures outcomes == [] && Holds([]) && fresh(tallies.Values)
    {
      tallies, outcomes := map[], [];
      new;
      ghost var v := View();
      Open(Overall);
      assert v == map[] && View().Keys == tallies.Keys;
      OpenedFirst();
    }

    method Credit(slot: Slot, p: Pair)
      requires Valid() && slot in tallies
      modifies tallies.Values
      ensures Valid() && tallies == old(tallies)
      ensures View() == old(View())[slot := Plus(old(View())[slot], p)]
    {
      tallies[slot].Add(p.matched, p.counted);
    }

    method OpenOne(slot: Slot)
      requires Valid() && slot !in tallies
      modifies this`tallies
      ensures Valid() && fresh(tallies.Values - old(tallies.Values))
      ensures View() == old(View())[slot := Pair(0, 0)]
    {
      var tally := new Tally();
      tallies := tallies[slot := tally];
    }

    /** A group's five tallies, fresh and empty, unless it has them. */
    method Open(g: Group)
      requires Valid() && Even(tallies.Keys)
      modifies this`tallies
      ensures Valid() && Even(tallies.Keys) && fresh(tallies.Values - old(tallies.Values))
      ensures View() == Opened(old(View()), g)
    {
      hide Opened, Even, OpenedUpTo;
      ghost var v := View();
      assert v.Keys == tallies.Keys;
      OpenedAll(v, g);
      if Slot(g, Classify) in tallies {
        return;
      }
      for i := 0 to |FIGURES|
        invariant Valid() && fresh(tallies.Values - old(tallies.Values))
        invariant View() == OpenedUpTo(v, g, i)
      {
        OpenedSoFar(v, g, i);
        OpenOne(Slot(g, FIGURES[i]));
      }
      assert View().Keys == tallies.Keys;
    }

    /** Every tally holds exactly what these outcomes give its group, and a group has tallies
        exactly when one of them is in it. */
    ghost predicate Holds(os: seq<Outcome>)
      reads this, tallies.Values
    {
      && Valid()
      && (forall slot :: slot in tallies <==> Seen(os, slot.group))
      && forall slot | slot in tallies :: View()[slot] == Tallied(os, slot)
    }

    method AddFigure(o: Outcome, f: Figure)
      requires Valid() && f in o.figures
      requires Slot(Overall, f) in tallies && Slot(OfType(o.kind), f) in tallies && Slot(OfLanguage(o.language), f) in tallies
      modifies tallies.Values
      ensures Valid() && tallies == old(tallies)
      ensures View() == Spread(old(View()), o, f)
    {
      ghost var v := View();
      Credit(Slot(Overall, f), o.figures[f]);
      Credit(Slot(OfType(o.kind), f), o.figures[f]);
      Credit(Slot(OfLanguage(o.language), f), o.figures[f]);
      ThreeCredits(v, o, f);
    }

    method OpenGroups(o: Outcome)
      requires Valid() && Even(tallies.Keys)
      modifies this`tallies
      ensures Valid() && fresh(tallies.Values - old(tallies.Values))
      ensures View() == Opened(Opened(old(View()), OfType(o.kind)), OfLanguage(o.language))
    {
      hide Opened, Even;
      Open(OfType(o.kind));
      Open(OfLanguage(o.language));
    }

    method AddFigures(o: Outcome)
      requires Valid()
      requires forall f: Figure :: Slot(Overall, f) in tallies && Slot(OfType(o.kind), f) in tallies && Slot(OfLanguage(o.language), f) in tallies
      modifies tallies.Values
      ensures Valid() && tallies == old(tallies)
      ensures View() == SpreadUpTo(old(View()), o, |FIGURES|)
    {
      for i := 0 to |FIGURES|
        invariant Valid() && tallies == old(tallies)
        invariant View() == SpreadUpTo(old(View()), o, i)
      {
        if FIGURES[i] in o.figures {
          AddFigure(o, FIGURES[i]);
        }
      }
    }

    method AddOutcome(o: Outcome)
      requires Holds(outcomes)
      modifies this, tallies.Values
      ensures outcomes == old(outcomes) + [o]
      ensures Holds(outcomes) && fresh(tallies.Values - old(tallies.Values))
    {
      hide Tallied, Seen, SpreadUpTo, Contribution, Plus, Opened, Even;
      SeenIsEven(tallies.Keys, outcomes);
      OpenedHolds(View(), outcomes, o);
      OpenGroups(o);
      AllGroupsAreOpen(outcomes, o);
      ghost var v := View();
      AddFigures(o);
      ghost var w := View();
      forall slot: Slot
        ensures Tallied(outcomes + [o], slot) == Plus(Tallied(outcomes, slot), Contribution(slot, o))
        ensures slot in v ==> slot in SpreadUpTo(v, o, |FIGURES|)
                              && SpreadUpTo(v, o, |FIGURES|)[slot] == Plus(v[slot], Contribution(slot, o))
      {
        TalliedOneMore(outcomes, o, slot);
        if slot in v { SpreadToAll(v, o, slot); }
      }
      outcomes := outcomes + [o];
      assert View() == w;
    }
  }

  lemma {:induction false} OpenedHolds(v: map<Slot, Pair>, before: seq<Outcome>, o: Outcome)
    requires forall slot :: slot in v <==> Seen(before, slot.group)
    requires forall slot | slot in v :: v[slot] == Tallied(before, slot)
    ensures var w := Opened(Opened(v, OfType(o.kind)), OfLanguage(o.language));
      && (forall slot :: slot in w <==> Seen(before + [o], slot.group))
      && (forall slot | slot in w :: w[slot] == Tallied(before, slot))
  {
    hide Tallied;
    var w := Opened(Opened(v, OfType(o.kind)), OfLanguage(o.language));
    forall slot: Slot
      ensures slot in w <==> Seen(before + [o], slot.group)
      ensures slot in w ==> w[slot] == Tallied(before, slot)
    {
      SeenOneMore(before, o, slot.group);
      EveryFigureIsListed();
      if slot !in v {
        UnseenHoldsNothing(before, slot);
      }
    }
  }

  lemma {:induction false} SeenIsEven(keys: set<Slot>, os: seq<Outcome>)
    requires forall slot :: slot in keys <==> Seen(os, slot.group)
    ensures Even(keys)
  {}

  function Spread(v: map<Slot, Pair>, o: Outcome, f: Figure): map<Slot, Pair> {
    map slot | slot in v :: if slot.figure == f then Plus(v[slot], Contribution(slot, o)) else v[slot]
  }

  function SpreadUpTo(v: map<Slot, Pair>, o: Outcome, i: nat): (w: map<Slot, Pair>)
    requires i <= |FIGURES|
    ensures w.Keys == v.Keys
  {
    if i == 0 then v
    else
      var w := SpreadUpTo(v, o, i - 1);
      if FIGURES[i - 1] in o.figures then Spread(w, o, FIGURES[i - 1]) else w
  }

  lemma {:induction false} ThreeCredits(v: map<Slot, Pair>, o: Outcome, f: Figure)
    requires f in o.figures
    requires Slot(Overall, f) in v && Slot(OfType(o.kind), f) in v && Slot(OfLanguage(o.language), f) in v
    ensures var a, b, c, p := Slot(Overall, f), Slot(OfType(o.kind), f), Slot(OfLanguage(o.language), f), o.figures[f];
      var v1 := v[a := Plus(v[a], p)];
      var v2 := v1[b := Plus(v1[b], p)];
      v2[c := Plus(v2[c], p)] == Spread(v, o, f)
  {}

  lemma {:induction false} SpreadSoFar(v: map<Slot, Pair>, o: Outcome, i: nat, slot: Slot)
    requires i <= |FIGURES| && slot in v
    ensures SpreadUpTo(v, o, i)[slot] == if slot.figure in FIGURES[..i] then Plus(v[slot], Contribution(slot, o)) else v[slot]
  {
    if i > 0 {
      SpreadSoFar(v, o, i - 1, slot);
      EveryFigureIsListed();
      assert FIGURES[..i] == FIGURES[..i - 1] + [FIGURES[i - 1]];
    }
  }

  lemma {:induction false} SpreadToAll(v: map<Slot, Pair>, o: Outcome, slot: Slot)
    requires slot in v
    ensures SpreadUpTo(v, o, |FIGURES|)[slot] == Plus(v[slot], Contribution(slot, o))
  {
    EveryFigureIsListed();
    SpreadSoFar(v, o, |FIGURES|, slot);
  }

  lemma {:induction false} AllGroupsAreOpen(before: seq<Outcome>, o: Outcome)
    ensures Seen(before + [o], Overall)
    ensures Seen(before + [o], OfType(o.kind)) && Seen(before + [o], OfLanguage(o.language))
  {
    SeenOneMore(before, o, OfType(o.kind));
    SeenOneMore(before, o, OfLanguage(o.language));
  }

  lemma {:induction false} EveryFigureIsListed()
    ensures forall f: Figure :: f in FIGURES[..|FIGURES|]
    ensures forall i, j | 0 <= i < j < |FIGURES| :: FIGURES[i] != FIGURES[j]
  {
    forall f: Figure
      ensures f in FIGURES[..|FIGURES|]
    {
      var i := match f case Classify => 0 case IsVague => 1 case Components => 2 case Checks => 3 case BandFigure => 4;
      assert FIGURES[..|FIGURES|][i] == f;
    }
  }

  /** Every note's outcome, in order; the run stops where a comparison raises. */
  function Outcomes(pairs: seq<(EvalRow, PassRun)>, r: Rubric): Try<seq<Outcome>>
    requires Complete(r)
  {
    if pairs == [] then Done([])
    else
      var front := Outcomes(pairs[..|pairs| - 1], r);
      var (row, run) := pairs[|pairs| - 1];
      if front.Raised? then Raised
      else
        var last := Compare(row, run, r);
        if last.Raised? then Raised else Done(front.value + [last.value])
  }

  lemma {:induction false} RaisedStays(pairs: seq<(EvalRow, PassRun)>, r: Rubric, n: nat)
    requires Complete(r) && n <= |pairs| && Outcomes(pairs[..n], r).Raised?
    ensures Outcomes(pairs, r).Raised?
  {
    if n == |pairs| {
      assert pairs[..n] == pairs;
    } else {
      assert pairs[..|pairs| - 1][..n] == pairs[..n];
      RaisedStays(pairs[..|pairs| - 1], r, n);
    }
  }

  method Summarise(pairs: seq<(EvalRow, PassRun)>, r: Rubric) returns (summary: Summary, raised: bool)
    requires Complete(r)
    ensures raised <==> Outcomes(pairs, r).Raised?
    ensures !raised ==> Outcomes(pairs, r) == Done(summary.outcomes)
    ensures summary.Holds(summary.outcomes)
  {
    hide Compare, Tallied, Seen;
    summary := new Summary();
    for i := 0 to |pairs|
      invariant fresh(summary) && fresh(summary.tallies.Values)
      invariant Outcomes(pairs[..i], r) == Done(summary.outcomes)
      invariant summary.Holds(summary.outcomes)
    {
      assert pairs[..i + 1][..i] == pairs[..i];
      var outcome := CompareNote(pairs[i].0, pairs[i].1, r);
      if outcome.Raised? {
        RaisedStays(pairs, r, i + 1);
        return summary, true;
      }
      summary.AddOutcome(outcome.value);
    }
    assert pairs[..|pairs|] == pairs;
    return summary, false;
  }

  // ----- laws ------------------------------------------------------------------------------

  function MatchedBy<K>(os: seq<Outcome>, g: K -> Group, f: Figure): K -> int {
    (k: K) => Tallied(os, Slot(g(k), f)).matched
  }

  function CountedBy<K>(os: seq<Outcome>, g: K -> Group, f: Figure): K -> int {
    (k: K) => Tallied(os, Slot(g(k), f)).counted
  }

  /** `g` splits outcomes by `key`. */
  ghost predicate Splits<K(!new)>(g: K -> Group, key: Outcome -> K) {
    forall o, k :: Counts(g(k), o) <==> key(o) == k
  }

  /** Tallies split by any key sum to the overall tally, figure by figure. */
  lemma {:induction false} SplitsAddUp<K(!new)>(ks: seq<K>, os: seq<Outcome>, g: K -> Group, key: Outcome -> K,
                                        f: Figure)
    requires Groups.Distinct(ks) && Splits(g, key)
    requires forall i | 0 <= i < |os| :: key(os[i]) in ks
    ensures Groups.SumOver(ks, MatchedBy(os, g, f)) == Tallied(os, Slot(Overall, f)).matched
    ensures Groups.SumOver(ks, CountedBy(os, g, f)) == Tallied(os, Slot(Overall, f)).counted
  {
    var m, n := MatchedBy(os, g, f), CountedBy(os, g, f);
    if os == [] {
      Groups.SumsAgree(ks, m, (k: K) => 0);
      Groups.SumsAgree(ks, n, (k: K) => 0);
      Groups.SumOfNothing(ks);
    } else {
      var front, o := os[..|os| - 1], os[|os| - 1];
      SplitsAddUp(ks, front, g, key, f);
      assert key(o) in ks;
      var share := Contribution(Slot(Overall, f), o);
      forall k: K
        ensures Contribution(Slot(g(k), f), o) == if k == key(o) then share else Pair(0, 0)
      {
        assert Counts(g(k), o) <==> key(o) == k;
      }
      Groups.SumsDifferOnce(ks, m, MatchedBy(front, g, f), key(o));
      Groups.SumsDifferOnce(ks, n, CountedBy(front, g, f), key(o));
    }
  }

  function TypeGroup(k: Option<Kind>): Group { OfType(k) }

  function TypeOf(o: Outcome): Option<Kind> { o.kind }

  function LanguageGroup(l: Language): Group { OfLanguage(l) }

  function LanguageIn(o: Outcome): Language { o.language }

  /** The per-type tallies sum to the overall tally, over exactly the types that have one. */
  lemma {:induction false} TypesAddUp(ks: seq<Option<Kind>>, os: seq<Outcome>, f: Figure)
    requires Groups.Distinct(ks) && forall k :: k in ks <==> Seen(os, OfType(k))
    ensures Groups.SumOver(ks, MatchedBy(os, TypeGroup, f)) == Tallied(os, Slot(Overall, f)).matched
    ensures Groups.SumOver(ks, CountedBy(os, TypeGroup, f)) == Tallied(os, Slot(Overall, f)).counted
  {
    forall i | 0 <= i < |os|
      ensures TypeOf(os[i]) in ks
    {
      assert Counts(OfType(os[i].kind), os[i]);
    }
    SplitsAddUp(ks, os, TypeGroup, TypeOf, f);
  }

  lemma {:induction false} LanguagesAddUp(ls: seq<Language>, os: seq<Outcome>, f: Figure)
    requires Groups.Distinct(ls) && forall l :: l in ls <==> Seen(os, OfLanguage(l))
    ensures Groups.SumOver(ls, MatchedBy(os, LanguageGroup, f)) == Tallied(os, Slot(Overall, f)).matched
    ensures Groups.SumOver(ls, CountedBy(os, LanguageGroup, f)) == Tallied(os, Slot(Overall, f)).counted
  {
    forall i | 0 <= i < |os|
      ensures LanguageIn(os[i]) in ls
    {
      assert Counts(OfLanguage(os[i].language), os[i]);
    }
    SplitsAddUp(ls, os, LanguageGroup, LanguageIn, f);
  }

  /** Counted and not matched, over the figures of one note. */
  function Missed(figures: map<Figure, Pair>, fs: seq<Figure>): int {
    if fs == [] then 0
    else
      var f := fs[|fs| - 1];
      Missed(figures, fs[..|fs| - 1]) + if f in figures then figures[f].counted - figures[f].matched else 0
  }

  lemma {:induction false} ChecksDifferOrMatch(marks: seq<(Check, bool)>, run: PassRun)
    ensures MatchedChecks(marks, run) + |DifferingChecks(marks, run)| == |marks|
    ensures forall d | d in DifferingChecks(marks, run) :: d.expected != d.actual
  {
    if marks != [] { ChecksDifferOrMatch(marks[..|marks| - 1], run); }
  }

  lemma {:induction false} MissedOneFigureMore(figures: map<Figure, Pair>, f: Figure, p: Pair, n: nat)
    requires f !in figures && n <= |FIGURES|
    ensures Missed(figures[f := p], FIGURES[..n])
         == Missed(figures, FIGURES[..n]) + if f in FIGURES[..n] then p.counted - p.matched else 0
  {
    if n > 0 {
      MissedOneFigureMore(figures, f, p, n - 1);
      EveryFigureIsListed();
      assert FIGURES[..n][..n - 1] == FIGURES[..n - 1];
      assert FIGURES[..n] == FIGURES[..n - 1] + [FIGURES[n - 1]];
    }
  }

  /** One disagreement for every answer counted and not matched, with two different sides. */
  ghost predicate Sound(o: Outcome) {
    && |o.disagreements| == Missed(o.figures, FIGURES)
    && (forall d | d in o.disagreements :: d.expected != d.actual)
    && (forall f | f in o.figures :: o.figures[f].matched <= o.figures[f].counted)
  }

  lemma {:induction false} EnteredFigureMisses(o: Outcome, f: Figure, p: Pair)
    requires f !in o.figures
    ensures Missed(o.figures[f := p], FIGURES) == Missed(o.figures, FIGURES) + p.counted - p.matched
  {
    EveryFigureIsListed();
    MissedOneFigureMore(o.figures, f, p, |FIGURES|);
    assert FIGURES[..|FIGURES|] == FIGURES;
  }

  lemma {:induction false} RecordingKeepsSound(o: Outcome, f: Figure, expected: Answer, actual: Answer)
    requires Sound(o) && f !in o.figures
    ensures Sound(Recorded(o, f, expected, actual))
  {
    hide Missed;
    EnteredFigureMisses(o, f, Recorded(o, f, expected, actual).figures[f]);
  }

  lemma {:induction false} ChecksKeepSound(o: Outcome, marks: seq<(Check, bool)>, run: PassRun)
    requires Sound(o) && Checks !in o.figures
    ensures Sound(WithChecks(o, marks, run))
  {
    hide Missed, MatchedChecks, DifferingChecks;
    ChecksDifferOrMatch(marks, run);
    EnteredFigureMisses(o, Checks, Pair(MatchedChecks(marks, run), |marks|));
  }

  lemma {:induction false} NoteFiguresAreSound(row: EvalRow, run: PassRun)
    ensures var o := NoteFigures(row, run);
      && Sound(o) && o.figures.Keys == {Classify, IsVague, Components}
      && o.figures[Classify].counted == (if row.kind.Some? then 1 else 0)
      && o.figures[IsVague].counted == (if row.vague.Some? then 1 else 0)
      && o.figures[Components].counted == (if row.missing.Some? then 1 else 0)
  {
    hide Sound, LanguageOf;
    var o := Outcome(row.id, LanguageOf(row.text), if row.kind.Some? then row.kind else run.kind, map[], [], false);
    NothingIsSound(o);
    RecordingKeepsSound(o, Classify, KindAnswer(row.kind), KindAnswer(run.kind));
    var classified := Recorded(o, Classify, KindAnswer(row.kind), KindAnswer(run.kind));
    RecordingKeepsSound(classified, IsVague, BoolAnswer(row.vague), BoolAnswer(run.vague));
    var judged := Recorded(classified, IsVague, BoolAnswer(row.vague), BoolAnswer(run.vague));
    RecordingKeepsSound(judged, Components, SetAnswer(row.missing), SetAnswer(run.missing));
  }

  lemma {:induction false} NothingIsSound(o: Outcome)
    requires o.figures == map[] && o.disagreements == []
    ensures Sound(o)
  {
    NothingMissed(FIGURES);
  }

  lemma {:induction false} NothingMissed(fs: seq<Figure>)
    ensures Missed(map[], fs) == 0
  {
    if fs != [] { NothingMissed(fs[..|fs| - 1]); }
  }

  /** One note: every figure is entered, counted exactly when it was marked, and every counted
      answer that did not match is one disagreement with two different sides. */
  lemma {:induction false} EveryDifferenceIsListed(row: EvalRow, run: PassRun, r: Rubric)
    requires Complete(r) && Compare(row, run, r).Done?
    ensures var o := Compare(row, run, r).value;
      && o.figures.Keys == {Classify, IsVague, Components, Checks, BandFigure}
      && o.figures[Classify].counted == (if row.kind.Some? then 1 else 0)
      && o.figures[IsVague].counted == (if row.vague.Some? then 1 else 0)
      && o.figures[Components].counted == (if row.missing.Some? then 1 else 0)
      && o.figures[Checks].counted == |CheckMarks(row)|
      && o.figures[BandFigure].counted == (if ExpectedBand(row, r).value.Some? then 1 else 0)
      && Sound(o)
  {
    hide ExpectedBand, NoteFigures, MatchedChecks, DifferingChecks, Missed;
    var o := WithChecks(NoteFigures(row, run), CheckMarks(row), run);
    NoteFiguresAreSound(row, run);
    ChecksKeepSound(NoteFigures(row, run), CheckMarks(row), run);
    RecordingKeepsSound(o, BandFigure, BandAnswer(ExpectedBand(row, r).value), BandAnswer(run.band));
  }

  /** The rows of the report: every note's disagreements, in order. */
  function DisagreementRows(os: seq<Outcome>): seq<(string, Disagreement)> {
    if os == [] then []
    else
      var o := os[|os| - 1];
      DisagreementRows(os[..|os| - 1]) + seq(|o.disagreements|, i requires 0 <= i < |o.disagreements| => (o.id, o.disagreements[i]))
  }

  function MissedOverall(os: seq<Outcome>, fs: seq<Figure>): int {
    if fs == [] then 0
    else
      var t := Tallied(os, Slot(Overall, fs[|fs| - 1]));
      MissedOverall(os, fs[..|fs| - 1]) + (t.counted - t.matched)
  }

  lemma {:induction false} MissedOneMore(os: seq<Outcome>, o: Outcome, fs: seq<Figure>)
    ensures MissedOverall(os + [o], fs) == MissedOverall(os, fs) + Missed(o.figures, fs)
  {
    if fs != [] {
      MissedOneMore(os, o, fs[..|fs| - 1]);
      TalliedOneMore(os, o, Slot(Overall, fs[|fs| - 1]));
    }
  }

  lemma {:induction false} MissedInNothing(fs: seq<Figure>)
    ensures MissedOverall([], fs) == 0
  {
    if fs != [] { MissedInNothing(fs[..|fs| - 1]); }
  }

  /** The report has one row for every answer that was counted and did not match, and no other. */
  lemma {:induction false} DisagreementRowsAreTheMisses(pairs: seq<(EvalRow, PassRun)>, r: Rubric)
    requires Complete(r) && Outcomes(pairs, r).Done?
    ensures var os := Outcomes(pairs, r).value; |DisagreementRows(os)| == MissedOverall(os, FIGURES)
  {
    if pairs == [] {
      MissedInNothing(FIGURES);
    } else {
      hide Compare, Missed;
      var front := pairs[..|pairs| - 1];
      var (row, run) := pairs[|pairs| - 1];
      DisagreementRowsAreTheMisses(front, r);
      EveryDifferenceIsListed(row, run, r);
      var os, o := Outcomes(front, r).value, Compare(row, run, r).value;
      assert (os + [o])[..|os|] == os;
      MissedOneMore(os, o, FIGURES);
    }
  }
}
