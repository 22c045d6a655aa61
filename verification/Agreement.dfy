/** What the evaluation run makes of one note: when a figure matches, and what is listed when it
    does not. */
module Agreement {
  import opened Options
  import opened Scoring
  import opened Measures
  import opened Eval

  /** A figure the human marked matches if and only if the pass said the same. */
  function Entered<T(==)>(marked: Option<T>, said: Option<T>): Pair {
    if marked.None? then Pair(0, 0) else Pair(if said == marked then 1 else 0, 1)
  }

  /** Its row in the list: none when it was not marked or matches, and else both sides. */
  function Listed<T(==)>(f: Figure, marked: Option<T>, said: Option<T>, shown: T -> Answer): seq<Disagreement> {
    if marked.None? || said == marked then []
    else [Disagreement(Whole(f), shown(marked.value), if said.Some? then shown(said.value) else Nothing)]
  }

  /** The pass was asked `check` and gave that answer. */
  predicate Answered(run: PassRun, check: Check, yes: bool) {
    run.checks.Some? && check in run.checks.value && run.checks.value[check] == yes
  }

  ghost function Agreeing(marks: seq<(Check, bool)>, run: PassRun): set<nat> {
    set i: nat | i < |marks| && Answered(run, marks[i].0, marks[i].1)
  }

  // ----- check by check -------------------------------------------------------------------

  /** Matched checks are the marked positions to which the pass gave the marked answer. */
  lemma {:induction false} ChecksMatchByPosition(marks: seq<(Check, bool)>, run: PassRun)
    ensures MatchedChecks(marks, run) == |Agreeing(marks, run)|
  {
    if marks == [] {
      assert Agreeing(marks, run) == {};
    } else {
      var n := |marks| - 1;
      ChecksMatchByPosition(marks[..n], run);
      var (check, yes) := marks[n];
      assert Agreeing(marks, run) == Agreeing(marks[..n], run) + (if Answered(run, check, yes) then {n} else {});
      assert n !in Agreeing(marks[..n], run);
    }
  }

  ghost predicate MissedAt(marks: seq<(Check, bool)>, run: PassRun, i: nat, d: Disagreement) {
    && i < |marks| && !Answered(run, marks[i].0, marks[i].1)
    && d.item == CheckAnswer(marks[i].0) && d.expected == OfBool(marks[i].1)
    && d.actual == if Answered(run, marks[i].0, !marks[i].1) then OfBool(!marks[i].1) else Nothing
  }

  /** The listed checks are the marked positions to which it did not, each with the mark and the
      answer, or nothing where the check was not asked. */
  lemma {:induction false} ChecksAreListedByPosition(marks: seq<(Check, bool)>, run: PassRun, d: Disagreement)
    ensures |DifferingChecks(marks, run)| == |marks| - |Agreeing(marks, run)|
    ensures d in DifferingChecks(marks, run) <==> exists i: nat :: MissedAt(marks, run, i, d)
  {
    ChecksMatchByPosition(marks, run);
    ChecksDifferOrMatch(marks, run);
    ListedByPosition(marks, run, d);
  }

  lemma {:induction false} ListedByPosition(marks: seq<(Check, bool)>, run: PassRun, d: Disagreement)
    ensures d in DifferingChecks(marks, run) <==> exists i: nat :: MissedAt(marks, run, i, d)
  {
    if marks != [] {
      var n := |marks| - 1;
      ListedByPosition(marks[..n], run, d);
      assert forall i: nat | i < n :: MissedAt(marks, run, i, d) <==> MissedAt(marks[..n], run, i, d);
      assert d in DifferingChecks(marks, run) <==> d in DifferingChecks(marks[..n], run) || MissedAt(marks, run, n, d);
    }
  }

  // ----- the band -------------------------------------------------------------------------

  /** `a` holds exactly the marks. */
  ghost predicate AreMarks(a: Answers, marks: seq<(Check, bool)>) {
    && (forall check :: check in a <==> exists i :: 0 <= i < |marks| && marks[i].0 == check)
    && (forall i | 0 <= i < |marks| :: marks[i].0 in a && a[marks[i].0] == marks[i].1)
  }

  lemma {:induction false} MarksAreAnswers(a: Answers, marks: seq<(Check, bool)>, n: nat)
    requires AreMarks(a, marks) && n <= |marks|
    ensures forall check :: check in AsAnswers(marks[..n]) <==> exists i :: 0 <= i < n && marks[i].0 == check
    ensures forall check | check in AsAnswers(marks[..n]) :: check in a && AsAnswers(marks[..n])[check] == a[check]
  {
    if n > 0 {
      MarksAreAnswers(a, marks, n - 1);
      var front, last := AsAnswers(marks[..n - 1]), marks[n - 1];
      assert marks[..n][..n - 1] == marks[..n - 1] && marks[..n][n - 1] == last;
      assert AsAnswers(marks[..n]) == front[last.0 := last.1];
    }
  }

  /** The band compared with is that of the score the marks have under the marked type, when they
      answer exactly what that type asks; no other note has one, and the run raises exactly where
      that score has no denominator. */
  lemma {:induction false} BandIsThatOfTheMarks(row: EvalRow, r: Rubric, a: Answers, t: NoteType)
    requires Complete(r) && row.checks.Some? && AreMarks(a, row.checks.value) && row.kind == Some(Typed(t))
    ensures a.Keys != AskedSet(t, r) ==> ExpectedBand(row, r) == Done(None)
    ensures a.Keys == AskedSet(t, r) ==>
      var score := ComputeScore(a, t, r);
      ExpectedBand(row, r) == if score.Ok? then Done(Some(score.score.band)) else Raised
  {
    var marks := row.checks.value;
    MarksAreAnswers(a, marks, |marks|);
    assert marks[..|marks|] == marks;
    assert AsAnswers(marks) == a;
  }

  lemma {:induction false} NoBandWithoutTypeAndMarks(row: EvalRow, r: Rubric)
    requires Complete(r) && (row.checks.None? || row.kind.None? || row.kind.value.Unclassifiable?)
    ensures ExpectedBand(row, r) == Done(None)
  {}

  // ----- one note -------------------------------------------------------------------------

  /** The answers of one kind that `shown` makes are told apart and are never nothing. */
  ghost predicate Shows<T(!new)>(shown: T -> Answer) {
    (forall x, y | shown(x) == shown(y) :: x == y) && forall x :: shown(x) != Nothing
  }

  lemma {:induction false} RecordingEnters<T(!new)>(o: Outcome, f: Figure, marked: Option<T>, said: Option<T>, shown: T -> Answer,
                                        expected: Answer, actual: Answer)
    requires Shows(shown)
    requires expected == if marked.Some? then shown(marked.value) else Nothing
    requires actual == if said.Some? then shown(said.value) else Nothing
    ensures Recorded(o, f, expected, actual)
         == o.(figures := o.figures[f := Entered(marked, said)],
               disagreements := o.disagreements + Listed(f, marked, said, shown))
  {
  }

  function KindShown(k: Kind): Answer { OfKind(k) }

  function BoolShown(b: bool): Answer { OfBool(b) }

  function SetShown(s: set<Missing>): Answer { OfSet(s) }

  function BandShown(b: Band): Answer { OfBand(b) }

  lemma {:induction false} NoteFiguresAreEntered(row: EvalRow, run: PassRun)
    ensures NoteFigures(row, run)
         == Outcome(row.id, LanguageOf(row.text), if row.kind.Some? then row.kind else run.kind,
                    map[Classify := Entered(row.kind, run.kind), IsVague := Entered(row.vague, run.vague),
                        Components := Entered(row.missing, run.missing)],
                    Listed(Classify, row.kind, run.kind, KindShown) + Listed(IsVague, row.vague, run.vague, BoolShown)
                    + Listed(Components, row.missing, run.missing, SetShown),
                    false)
  {
    hide Recorded, LanguageOf, Entered, Listed;
    var o := Outcome(row.id, LanguageOf(row.text), if row.kind.Some? then row.kind else run.kind, map[], [], false);
    RecordingEnters(o, Classify, row.kind, run.kind, KindShown, KindAnswer(row.kind), KindAnswer(run.kind));
    var classified := Recorded(o, Classify, KindAnswer(row.kind), KindAnswer(run.kind));
    RecordingEnters(classified, IsVague, row.vague, run.vague, BoolShown, BoolAnswer(row.vague), BoolAnswer(run.vague));
    var judged := Recorded(classified, IsVague, BoolAnswer(row.vague), BoolAnswer(run.vague));
    RecordingEnters(judged, Components, row.missing, run.missing, SetShown, SetAnswer(row.missing), SetAnswer(run.missing));
    assert [] + Listed(Classify, row.kind, run.kind, KindShown) == Listed(Classify, row.kind, run.kind, KindShown);
  }

  /** One note's outcome, whole: every figure matches exactly where the pass said what was marked,
      and every difference is listed once, figure by figure, with the human's side first. */
  lemma {:induction false} OutcomeIsTheComparison(row: EvalRow, run: PassRun, r: Rubric)
    requires Complete(r) && Compare(row, run, r).Done?
    ensures ExpectedBand(row, r).Done?
    ensures var o := Compare(row, run, r).value; var band := ExpectedBand(row, r).value;
      var marks := if row.checks.Some? then row.checks.value else [];
      && o.figures == map[Classify := Entered(row.kind, run.kind), IsVague := Entered(row.vague, run.vague),
                          Components := Entered(row.missing, run.missing),
                          Checks := Pair(|Agreeing(marks, run)|, |marks|),
                          BandFigure := Entered(band, run.band)]
      && o.disagreements == Listed(Classify, row.kind, run.kind, KindShown)
                          + Listed(IsVague, row.vague, run.vague, BoolShown)
                          + Listed(Components, row.missing, run.missing, SetShown)
                          + DifferingChecks(marks, run)
                          + Listed(BandFigure, band, run.band, BandShown)
      && o.id == row.id && o.language == LanguageOf(row.text)
      && o.kind == (if row.kind.Some? then row.kind else run.kind)
      && (o.bandNotComputable <==> row.checks.Some? && band.None?)
  {
    hide Recorded, LanguageOf, ExpectedBand, DifferingChecks, MatchedChecks, Entered, Listed, Agreeing, NoteFigures;
    var band := ExpectedBand(row, r).value;
    NoteFiguresAreEntered(row, run);
    ChecksMatchByPosition(CheckMarks(row), run);
    var checked := WithChecks(NoteFigures(row, run), CheckMarks(row), run);
    RecordingEnters(checked, BandFigure, band, run.band, BandShown, BandAnswer(band), BandAnswer(run.band));
  }

  /** A text is mixed exactly when it holds both scripts, and Arabic when it holds only that. */
  lemma {:induction false} LanguageIsTheScripts(row: EvalRow, run: PassRun, r: Rubric)
    requires Complete(r) && Compare(row, run, r).Done?
    ensures var arabic := exists i | 0 <= i < |row.text| :: '\U{0600}' <= row.text[i] <= '\U{06FF}';
      var latin := exists i | 0 <= i < |row.text| :: 'a' <= row.text[i] <= 'z' || 'A' <= row.text[i] <= 'Z';
      var language := Compare(row, run, r).value.language;
      && (language == Mixed <==> arabic && latin)
      && (language == Arabic <==> arabic && !latin)
  {
    hide Compare;
    OutcomeIsTheComparison(row, run, r);
  }

  // ----- all notes ------------------------------------------------------------------------

  /** The run stops exactly where some note's comparison raises, and otherwise holds every note's
      outcome, in order. */
  lemma {:induction false} OutcomesAreNoteByNote(pairs: seq<(EvalRow, PassRun)>, r: Rubric)
    requires Complete(r)
    ensures Outcomes(pairs, r).Raised? <==> exists i :: 0 <= i < |pairs| && Compare(pairs[i].0, pairs[i].1, r).Raised?
    ensures Outcomes(pairs, r).Done? ==>
      && |Outcomes(pairs, r).value| == |pairs|
      && forall i :: 0 <= i < |pairs| ==> Compare(pairs[i].0, pairs[i].1, r) == Done(Outcomes(pairs, r).value[i])
  {
    hide Compare;
    if pairs != [] {
      var n := |pairs| - 1;
      OutcomesAreNoteByNote(pairs[..n], r);
      assert forall i | 0 <= i < n :: pairs[..n][i] == pairs[i];
      assert pairs[n] == (pairs[n].0, pairs[n].1);
    }
  }

  /** The report's rows are the disagreements of the notes, each under its note's own id. */
  lemma {:induction false} RowsAreTheDisagreements(os: seq<Outcome>, id: string, d: Disagreement)
    ensures (id, d) in DisagreementRows(os)
            <==> exists i :: 0 <= i < |os| && os[i].id == id && d in os[i].disagreements
  {
    if os != [] {
      var n := |os| - 1;
      var o := os[n];
      RowsAreTheDisagreements(os[..n], id, d);
      var last := seq(|o.disagreements|, i requires 0 <= i < |o.disagreements| => (o.id, o.disagreements[i]));
      assert DisagreementRows(os) == DisagreementRows(os[..n]) + last;
      if o.id == id && d in o.disagreements {
        var i :| 0 <= i < |o.disagreements| && o.disagreements[i] == d;
        assert last[i] == (id, d);
      }
      assert (id, d) in last <==> o.id == id && d in o.disagreements;
      assert forall i | 0 <= i < n :: os[..n][i] == os[i];
    }
  }
}
