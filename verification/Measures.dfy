/** The three measures of a rolling window: typical band, flagged share, improved share. */
module Measures {
  import opened Options
  import opened Rounding
  import opened Scoring

  datatype Kind = Typed(noteType: NoteType) | Unclassifiable

  datatype Row = Row(
    noteId: nat, author: nat, kind: Option<Kind>,
    band: Option<Band>, total: Option<nat>,
    rubricVersion: string, configVersion: string,
    flagged: bool, promptSent: bool)
  {
    function Stamp(): (string, string) { (rubricVersion, configVersion) }
  }

  /** A salesperson's own work, and not an entry the backend wrote. */
  predicate IsRepNote(r: Row) { r.kind != Some(Typed(SystemEvent)) }

  predicate IsScored(r: Row) { r.total.Some? }

  predicate IsFlagged(r: Row) { r.flagged }

  predicate IsAsked(r: Row) { r.promptSent }

  function TotalOf(r: Row): nat { if r.total.Some? then r.total.value else 0 }

  function Made(stamp: (string, string)): Row -> bool { (r: Row) => r.Stamp() == stamp }

  datatype Suppression = NothingToMeasure | BelowEvidenceFloor

  datatype BandMeasure = BandMeasure(band: Option<Band>, suppressed: Option<Suppression>, notes: nat, excluded: nat)

  datatype ShareMeasure = ShareMeasure(percent: Option<int>, suppressed: Option<Suppression>, counted: nat, of: nat)

  datatype Config = Config(floor: nat, bands: seq<(Band, int)>)

  function Filter(rows: seq<Row>, p: Row -> bool): (kept: seq<Row>)
    ensures |kept| <= |rows|
    ensures forall r :: r in kept <==> r in rows && p(r)
  {
    if rows == [] then []
    else (if p(rows[0]) then [rows[0]] else []) + Filter(rows[1..], p)
  }

  function Sum(rows: seq<Row>, w: Row -> nat): nat {
    if rows == [] then 0 else w(rows[0]) + Sum(rows[1..], w)
  }

  function RepNotes(rows: seq<Row>): seq<Row> { Filter(rows, IsRepNote) }

  function Suppressed(denominator: nat, c: Config): Option<Suppression> {
    if denominator == 0 then Some(NothingToMeasure)
    else if denominator < c.floor then Some(BelowEvidenceFloor)
    else None
  }

  // ----- typical band ----------------------------------------------------------------------

  function ScoredRows(rows: seq<Row>): seq<Row> { Filter(RepNotes(rows), IsScored) }

  /** Only totals made under the latest pair of versions are compared. */
  function Comparable(rows: seq<Row>): seq<Row> {
    var scored := ScoredRows(rows);
    if scored == [] then []
    else Filter(scored, Made(scored[|scored| - 1].Stamp()))
  }

  function Mean(rows: seq<Row>): int
    requires rows != []
  {
    HalfUpDoubled(Sum(rows, TotalOf), |rows|)
  }

  function AverageBand(rows: seq<Row>, c: Config): BandMeasure
    requires c.bands != []
  {
    var scored, comparable := ScoredRows(rows), Comparable(rows);
    var excluded := |scored| - |comparable|;
    if scored == [] then BandMeasure(None, Some(NothingToMeasure), 0, 0)
    else
      var suppressed := Suppressed(|comparable|, c);
      if suppressed.Some? then BandMeasure(None, suppressed, |comparable|, excluded)
      else BandMeasure(Some(BandOf(c.bands, Mean(comparable))), None, |comparable|, excluded)
  }

  // ----- shares ----------------------------------------------------------------------------

  function Share(counted: nat, of: nat, c: Config): ShareMeasure {
    var suppressed := Suppressed(of, c);
    ShareMeasure(if suppressed.Some? then None else Some(HalfUp(counted * 100, of)), suppressed, counted, of)
  }

  function FlaggedShare(rows: seq<Row>, c: Config): ShareMeasure {
    var notes := RepNotes(rows);
    Share(|Filter(notes, IsFlagged)|, |notes|, c)
  }

  /** Some later row of the same note has a better band; any band is better than none. */
  predicate ImprovedBy(asked: Row, later: seq<Row>) {
    exists r | r in later ::
      r.noteId == asked.noteId && r.band.Some?
      && (asked.band.None? || BandRank(r.band.value) > BandRank(asked.band.value))
  }

  function ImprovedCount(notes: seq<Row>): nat {
    if notes == [] then 0
    else (if notes[0].promptSent && ImprovedBy(notes[0], notes[1..]) then 1 else 0) + ImprovedCount(notes[1..])
  }

  function ImprovedShare(rows: seq<Row>, c: Config): ShareMeasure {
    var notes := RepNotes(rows);
    Share(ImprovedCount(notes), |Filter(notes, IsAsked)|, c)
  }

  // ----- what the figures mean -------------------------------------------------------------

  lemma {:induction false} ImprovedWereAsked(notes: seq<Row>)
    ensures ImprovedCount(notes) <= |Filter(notes, IsAsked)|
  {
    if notes != [] { ImprovedWereAsked(notes[1..]); }
  }

  /** A share that is reported is the nearest whole percent, between 0 and 100; it is withheld
      exactly below the floor, with the reason. */
  lemma {:induction false} SharesAreHonest(counted: nat, of: nat, c: Config)
    requires counted <= of
    ensures var s := Share(counted, of, c);
      && (s.percent.Some? <==> of > 0 && of >= c.floor)
      && (s.percent.Some? ==> 0 <= s.percent.value <= 100 && Nearest(s.percent.value, counted * 100, of))
      && (s.suppressed == Some(NothingToMeasure) <==> of == 0)
      && (s.suppressed == Some(BelowEvidenceFloor) <==> 0 < of < c.floor)
  {
    if of > 0 {
      SpellingsAgree(counted * 100, of);
      StaysBetween(counted * 100, of, 0, 100);
    }
  }

  /** Nobody is shown more improvements than questions, or more flags than notes. */
  lemma {:induction false} PercentsStayInRange(rows: seq<Row>, c: Config)
    ensures var f, i := FlaggedShare(rows, c), ImprovedShare(rows, c);
      && f.counted <= f.of && i.counted <= i.of <= f.of
      && (f.percent.Some? ==> 0 <= f.percent.value <= 100)
      && (i.percent.Some? ==> 0 <= i.percent.value <= 100)
  {
    ImprovedWereAsked(RepNotes(rows));
    var f, i := FlaggedShare(rows, c), ImprovedShare(rows, c);
    SharesAreHonest(f.counted, f.of, c);
    SharesAreHonest(i.counted, i.of, c);
  }

  lemma {:induction false} FilterKeepsAll(rows: seq<Row>, p: Row -> bool)
    ensures |Filter(rows, p)| == |rows| <==> forall r | r in rows :: p(r)
    ensures (forall r | r in rows :: p(r)) ==> Filter(rows, p) == rows
  {
    if rows != [] {
      FilterKeepsAll(rows[1..], p);
      assert rows == [rows[0]] + rows[1..];
      assert forall r :: r in rows <==> r == rows[0] || r in rows[1..];
    }
  }

  lemma {:induction false} ComparableAreTheLatestMake(rows: seq<Row>)
    ensures var scored, comparable := ScoredRows(rows), Comparable(rows);
      && |comparable| <= |scored|
      && (comparable == [] <==> scored == [])
      && (|comparable| == |scored| <==> forall r | r in scored :: r.Stamp() == scored[|scored| - 1].Stamp())
  {
    hide ScoredRows;
    var scored := ScoredRows(rows);
    if scored != [] {
      var last := scored[|scored| - 1];
      FilterKeepsAll(scored, Made(last.Stamp()));
      assert last in Comparable(rows);
    }
  }

  /** Rows made under another pair of versions are counted out, never averaged in. */
  lemma {:induction false} DriftIsExcludedAndCounted(rows: seq<Row>, c: Config)
    requires c.bands != []
    ensures var m := AverageBand(rows, c); var scored := ScoredRows(rows);
      && m.notes + m.excluded == |scored|
      && (m.excluded == 0 <==> forall r | r in scored :: r.Stamp() == scored[|scored| - 1].Stamp())
      && (m.band.Some? <==> m.notes > 0 && m.notes >= c.floor)
      && (scored != [] ==> m.notes > 0)
  {
    hide ScoredRows, Comparable, Filter, Mean, BandOf;
    ComparableAreTheLatestMake(rows);
  }

  // ----- improvements, by position ---------------------------------------------------------

  /** The note asked about at `i` has a better band at some later position. */
  ghost predicate ImprovesAt(notes: seq<Row>, i: nat) {
    && i < |notes| && notes[i].promptSent
    && exists j :: i < j < |notes| && notes[j].noteId == notes[i].noteId && notes[j].band.Some?
         && (notes[i].band.None? || BandRank(notes[j].band.value) > BandRank(notes[i].band.value))
  }

  ghost function Improvements(notes: seq<Row>): set<nat> {
    set i: nat | i < |notes| && ImprovesAt(notes, i)
  }

  ghost function Shifted(s: set<nat>): set<nat> { set i | i in s :: i + 1 }

  lemma {:induction false} ShiftKeepsSize(s: set<nat>)
    ensures |Shifted(s)| == |s|
    decreases |s|
  {
    if s != {} {
      var x :| x in s;
      ShiftKeepsSize(s - {x});
      forall y: nat
        ensures y in Shifted(s) <==> y in Shifted(s - {x}) + {x + 1}
      {
        if y in Shifted(s) && y != x + 1 {
          var i :| i in s && y == i + 1;
          assert i in s - {x};
        }
      }
      assert Shifted(s) == Shifted(s - {x}) + {x + 1};
    }
  }

  lemma {:induction false} ImprovesLater(notes: seq<Row>, i: nat)
    requires notes != []
    ensures ImprovesAt(notes, i + 1) <==> ImprovesAt(notes[1..], i)
    ensures ImprovesAt(notes, 0) <==> notes[0].promptSent && ImprovedBy(notes[0], notes[1..])
  {
    var rest := notes[1..];
    assert forall j | 1 <= j < |notes| :: notes[j] == rest[j - 1];
    if ImprovesAt(notes, i + 1) {
      var j :| i + 1 < j < |notes| && notes[j].noteId == notes[i + 1].noteId && notes[j].band.Some?
        && (notes[i + 1].band.None? || BandRank(notes[j].band.value) > BandRank(notes[i + 1].band.value));
      assert rest[j - 1] == notes[j];
    }
    if ImprovesAt(rest, i) {
      var j :| i < j < |rest| && rest[j].noteId == rest[i].noteId && rest[j].band.Some?
        && (rest[i].band.None? || BandRank(rest[j].band.value) > BandRank(rest[i].band.value));
      assert notes[j + 1] == rest[j];
    }
    if notes[0].promptSent && ImprovedBy(notes[0], rest) {
      var r :| r in rest && r.noteId == notes[0].noteId && r.band.Some?
        && (notes[0].band.None? || BandRank(r.band.value) > BandRank(notes[0].band.value));
      var j :| 0 <= j < |rest| && rest[j] == r;
      assert notes[j + 1] == r;
    }
  }

  lemma {:induction false} ImprovementsUnfold(notes: seq<Row>)
    requires notes != []
    ensures Improvements(notes) == (if ImprovesAt(notes, 0) then {0} else {}) + Shifted(Improvements(notes[1..]))
  {
    hide ImprovesAt;
    var rest := notes[1..];
    var first: set<nat> := if ImprovesAt(notes, 0) then {0} else {};
    forall i: nat
      ensures i in Improvements(notes) <==> i in first + Shifted(Improvements(rest))
    {
      if i > 0 {
        ImprovesLater(notes, i - 1);
        assert i - 1 in Improvements(rest) ==> i in Shifted(Improvements(rest));
      }
    }
  }

  /** The improved figure counts exactly the positions that were asked about and are followed,
      after that very ask, by a better band of the same note. */
  lemma {:induction false} ImprovedCountsPositions(notes: seq<Row>)
    ensures ImprovedCount(notes) == |Improvements(notes)|
  {
    if notes == [] {
      assert Improvements(notes) == {};
    } else {
      hide ImprovesAt, ImprovedBy, Improvements, Shifted;
      ImprovedCountsPositions(notes[1..]);
      ImprovementsUnfold(notes);
      ShiftKeepsSize(Improvements(notes[1..]));
      ImprovesLater(notes, 0);
      ShiftIsPositive(Improvements(notes[1..]));
    }
  }

  lemma {:induction false} ShiftIsPositive(s: set<nat>)
    ensures 0 !in Shifted(s)
  {}

  // ----- what is counted, by position in the rows -----------------------------------------

  predicate Both(p: Row -> bool, q: Row -> bool, r: Row) { p(r) && q(r) }

  lemma {:induction false} FilterTwice(rows: seq<Row>, p: Row -> bool, q: Row -> bool)
    ensures Filter(Filter(rows, p), q) == Filter(rows, (r: Row) => Both(p, q, r))
  {
    if rows != [] {
      FilterTwice(rows[1..], p, q);
      var rest := Filter(rows[1..], p);
      assert p(rows[0]) ==> ([rows[0]] + rest)[1..] == rest;
      assert !p(rows[0]) ==> [] + rest == rest;
    }
  }

  ghost function Positions(rows: seq<Row>, p: Row -> bool): set<nat> {
    set i: nat | i < |rows| && p(rows[i])
  }

  lemma {:induction false} PositionsUnfold(rows: seq<Row>, p: Row -> bool)
    requires rows != []
    ensures Positions(rows, p) == (if p(rows[0]) then {0} else {}) + Shifted(Positions(rows[1..], p))
  {
    var rest := Positions(rows[1..], p);
    forall i: nat
      ensures i in Positions(rows, p) <==> (i == 0 && p(rows[0])) || i in Shifted(rest)
    {
      if i > 0 {
        assert i - 1 in rest <==> i in Positions(rows, p);
        assert i - 1 in rest ==> i in Shifted(rest);
      }
    }
  }

  lemma {:induction false} FilterCounts(rows: seq<Row>, p: Row -> bool)
    ensures |Filter(rows, p)| == |Positions(rows, p)|
  {
    if rows == [] {
      assert Positions(rows, p) == {};
    } else {
      hide Positions, Shifted;
      var rest := Positions(rows[1..], p);
      FilterCounts(rows[1..], p);
      PositionsUnfold(rows, p);
      ShiftKeepsSize(rest);
      ShiftIsPositive(rest);
    }
  }

  lemma {:induction false} NoneKept(rows: seq<Row>, p: Row -> bool)
    requires forall i :: 0 <= i < |rows| ==> !p(rows[i])
    ensures Filter(rows, p) == []
  {
    if rows != [] { NoneKept(rows[1..], p); }
  }

  lemma {:induction false} LastKept(rows: seq<Row>, p: Row -> bool, n: nat)
    requires n < |rows| && p(rows[n])
    requires forall j :: n < j < |rows| ==> !p(rows[j])
    ensures Filter(rows, p) != [] && Filter(rows, p)[|Filter(rows, p)| - 1] == rows[n]
  {
    if n > 0 {
      LastKept(rows[1..], p, n - 1);
    } else {
      NoneKept(rows[1..], p);
    }
  }

  /** The salesperson's own notes among the rows that `p` holds for, by position. */
  ghost function NotesWhere(rows: seq<Row>, p: Row -> bool): set<nat> {
    set n: nat | n < |rows| && IsRepNote(rows[n]) && p(rows[n])
  }

  lemma {:induction false} NotesCount(rows: seq<Row>, p: Row -> bool)
    ensures |Filter(RepNotes(rows), p)| == |NotesWhere(rows, p)|
  {
    hide Filter, IsRepNote;
    var both := (r: Row) => Both(IsRepNote, p, r);
    FilterTwice(rows, IsRepNote, p);
    FilterCounts(rows, both);
    assert Positions(rows, both) == NotesWhere(rows, p);
  }

  /** The rows a share is about, by position: everything but the entries the backend wrote. */
  lemma {:induction false} SharesCountPositions(rows: seq<Row>, c: Config)
    ensures var f, i := FlaggedShare(rows, c), ImprovedShare(rows, c);
      && f.of == |set n: nat | n < |rows| && rows[n].kind != Some(Typed(SystemEvent))|
      && f.counted == |set n: nat | n < |rows| && rows[n].kind != Some(Typed(SystemEvent)) && rows[n].flagged|
      && i.of == |set n: nat | n < |rows| && rows[n].kind != Some(Typed(SystemEvent)) && rows[n].promptSent|
  {
    hide Filter, ImprovedCount, Suppressed, HalfUp;
    FilterCounts(rows, IsRepNote);
    NotesCount(rows, IsFlagged);
    NotesCount(rows, IsAsked);
    assert Positions(rows, IsRepNote) == set n: nat | n < |rows| && rows[n].kind != Some(Typed(SystemEvent));
    assert NotesWhere(rows, IsFlagged)
        == set n: nat | n < |rows| && rows[n].kind != Some(Typed(SystemEvent)) && rows[n].flagged;
    assert NotesWhere(rows, IsAsked)
        == set n: nat | n < |rows| && rows[n].kind != Some(Typed(SystemEvent)) && rows[n].promptSent;
  }

  /** A salesperson's own note that has a total. */
  predicate Counted(r: Row) { r.kind != Some(Typed(SystemEvent)) && r.total.Some? }

  /** And one made under the same two versions as `like`. */
  predicate CountedLike(r: Row, like: Row) {
    Counted(r) && r.rubricVersion == like.rubricVersion && r.configVersion == like.configVersion
  }

  function TotalLike(rows: seq<Row>, like: Row): nat {
    if rows == [] then 0
    else (if CountedLike(rows[0], like) then rows[0].total.value else 0) + TotalLike(rows[1..], like)
  }

  lemma {:induction false} SumOfFiltered(rows: seq<Row>, p: Row -> bool, like: Row)
    requires forall r :: p(r) <==> CountedLike(r, like)
    ensures Sum(Filter(rows, p), TotalOf) == TotalLike(rows, like)
  {
    if rows != [] {
      SumOfFiltered(rows[1..], p, like);
      var rest := Filter(rows[1..], p);
      assert p(rows[0]) ==> ([rows[0]] + rest)[1..] == rest;
      assert !p(rows[0]) ==> [] + rest == rest;
    }
  }

  /** The typical band is that of the nearest whole mean of the totals made under the versions of
      the latest scored note, which is at `n`; the other scored notes are counted out. */
  lemma {:induction false} LatestVersionsAreAveraged(rows: seq<Row>, c: Config, n: nat)
    requires c.bands != [] && n < |rows| && Counted(rows[n])
    requires forall j :: n < j < |rows| ==> !Counted(rows[j])
    ensures var m := AverageBand(rows, c);
      var like := set i: nat | i < |rows| && CountedLike(rows[i], rows[n]);
      && m.notes == |like|
      && m.excluded == |set i: nat | i < |rows| && Counted(rows[i])| - |like|
      && (m.band.Some? ==> exists mean ::
            Nearest(mean, TotalLike(rows, rows[n]), |like|) && m.band == Some(BandOf(c.bands, mean)))
  {
    hide Filter, BandOf, HalfUpDoubled, HalfUp, Nearest, Comparable, ScoredRows, TotalLike, CountedLike, Counted;
    ComparableByPosition(rows, n);
    if Comparable(rows) != [] {
      SpellingsAgree(Sum(Comparable(rows), TotalOf), |Comparable(rows)|);
    }
  }

  lemma {:induction false} ComparableByPosition(rows: seq<Row>, n: nat)
    requires n < |rows| && Counted(rows[n])
    requires forall j :: n < j < |rows| ==> !Counted(rows[j])
    ensures |ScoredRows(rows)| == |set i: nat | i < |rows| && Counted(rows[i])| && ScoredRows(rows) != []
    ensures |Comparable(rows)| == |set i: nat | i < |rows| && CountedLike(rows[i], rows[n])|
    ensures Sum(Comparable(rows), TotalOf) == TotalLike(rows, rows[n])
  {
    hide Filter, TotalLike, Sum;
    var counted := (r: Row) => Both(IsRepNote, IsScored, r);
    FilterTwice(rows, IsRepNote, IsScored);
    LastKept(rows, counted, n);
    FilterCounts(rows, counted);
    var latest := Made(rows[n].Stamp());
    FilterTwice(rows, counted, latest);
    var like := (r: Row) => Both(counted, latest, r);
    FilterCounts(rows, like);
    SumOfFiltered(rows, like, rows[n]);
    assert Positions(rows, counted) == set i: nat | i < |rows| && Counted(rows[i]);
    assert Positions(rows, like) == set i: nat | i < |rows| && CountedLike(rows[i], rows[n]);
  }

  lemma {:induction false} NothingScoredIsNothingMeasured(rows: seq<Row>, c: Config)
    requires c.bands != [] && forall j :: 0 <= j < |rows| ==> !Counted(rows[j])
    ensures AverageBand(rows, c) == BandMeasure(None, Some(NothingToMeasure), 0, 0)
  {
    var counted := (r: Row) => Both(IsRepNote, IsScored, r);
    FilterTwice(rows, IsRepNote, IsScored);
    FilterCounts(rows, counted);
    assert Positions(rows, counted) == {};
  }
}
