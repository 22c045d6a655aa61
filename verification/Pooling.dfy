/** The typical band over pooled rows lies between the parts' bands. */
module Pooling {
  import opened Options
  import opened Rounding
  import Scoring
  import opened Measures
  import opened Groups
  import opened Brief
  import opened BriefLaws

  /** All scored rows were made under one pair of versions. */
  ghost predicate OneMake(rows: seq<Row>) {
    forall r, s :: r in ScoredRows(rows) && s in ScoredRows(rows) ==> r.Stamp() == s.Stamp()
  }

  lemma {:induction false} OneMakeIsComparable(rows: seq<Row>)
    requires OneMake(rows)
    ensures Comparable(rows) == ScoredRows(rows)
  {
    var scored := ScoredRows(rows);
    if scored != [] {
      FilterKeepsAll(scored, Made(scored[|scored| - 1].Stamp()));
    }
  }

  lemma {:induction false} ScoredOfAGroup<K>(rows: seq<Row>, key: Row -> Option<K>, k: K)
    ensures ScoredRows(Group(rows, key, k)) == Group(ScoredRows(rows), key, k)
    ensures OneMake(rows) ==> OneMake(Group(rows, key, k))
  {
    FiltersCommute(rows, With(key, k), IsRepNote);
    FiltersCommute(RepNotes(rows), With(key, k), IsScored);
  }

  // ----- integers --------------------------------------------------------------------------

  lemma {:induction false} MeanFromAbove(s: int, n: int, mean: int, m: int)
    requires n > 0 && Nearest(mean, s, n) && 2 * s < n * (2 * m + 1)
    ensures mean <= m
  {
    assert n * (2 * mean - 1) == 2 * (n * mean) - n;
    if mean > m { Scaled(n, 2 * m + 1, 2 * mean - 1); }
  }

  lemma {:induction false} MeanFromBelow(s: int, n: int, mean: int, m: int)
    requires n > 0 && Nearest(mean, s, n) && 2 * s >= n * (2 * m - 1)
    ensures mean >= m
  {
    assert n * (2 * mean + 1) == 2 * (n * mean) + n;
    if mean < m { Scaled(n, 2 * mean + 1, 2 * m - 1); }
  }

  lemma {:induction false} SumsOfTwo<K>(ks: seq<K>, s: K -> int, n: K -> int, h: K -> int, x: int)
    requires forall k | k in ks :: h(k) == 2 * s(k) - n(k) * x
    ensures SumOver(ks, h) == 2 * SumOver(ks, s) - SumOver(ks, n) * x
  {
    if ks != [] {
      SumsOfTwo(ks[1..], s, n, h, x);
      Distributes(n(ks[0]), SumOver(ks[1..], n), x);
    }
  }

  lemma {:induction false} Distributes(a: int, b: int, x: int)
    ensures (a + b) * x == a * x + b * x
  {}

  lemma {:induction false} SomeIsNegative<K>(ks: seq<K>, h: K -> int)
    requires SumOver(ks, h) < 0
    ensures exists k :: k in ks && h(k) < 0
  {
    if h(ks[0]) >= 0 {
      SomeIsNegative(ks[1..], h);
      var k :| k in ks[1..] && h(k) < 0;
      assert k in ks;
    } else {
      assert ks[0] in ks;
    }
  }

  /** When nothing is below zero in total, something that counts is not either. */
  lemma {:induction false} SomeIsNotNegative<K>(ks: seq<K>, h: K -> int, n: K -> int)
    requires SumOver(ks, h) >= 0 && SumOver(ks, n) > 0
    requires forall k | k in ks :: n(k) >= 0 && (n(k) == 0 ==> h(k) == 0)
    ensures exists k :: k in ks && n(k) > 0 && h(k) >= 0
  {
    if n(ks[0]) > 0 && h(ks[0]) >= 0 {
      assert ks[0] in ks;
    } else {
      NothingWeighsNothing(ks[1..], h, n);
      SomeIsNotNegative(ks[1..], h, n);
      var k :| k in ks[1..] && n(k) > 0 && h(k) >= 0;
      assert k in ks;
    }
  }

  lemma {:induction false} NothingWeighsNothing<K>(ks: seq<K>, h: K -> int, n: K -> int)
    requires forall k | k in ks :: n(k) >= 0 && (n(k) == 0 ==> h(k) == 0)
    ensures SumOver(ks, n) >= 0
    ensures SumOver(ks, n) == 0 ==> SumOver(ks, h) == 0
  {
    if ks != [] { NothingWeighsNothing(ks[1..], h, n); }
  }

  // ----- means -----------------------------------------------------------------------------

  function TotalsOf<K(==)>(scored: seq<Row>, key: Row -> Option<K>): K -> int { GroupSum(scored, key, TotalOf) }

  function SizeOf<K(==)>(scored: seq<Row>, key: Row -> Option<K>): K -> int {
    (k: K) => |Group(scored, key, k)|
  }

  /** The scored rows that are averaged for a key. */
  function Part<K(==)>(rows: seq<Row>, key: Row -> Option<K>, k: K): seq<Row> { Comparable(Group(rows, key, k)) }

  lemma {:induction false} PartsConserve<K>(ks: seq<K>, rows: seq<Row>, key: Row -> Option<K>)
    requires Distinct(ks) && Lists(ks, rows, key) && OneMake(rows)
    requires forall r | r in rows :: key(r).Some?
    ensures var scored := ScoredRows(rows);
      && Comparable(rows) == scored
      && SumOver(ks, TotalsOf(scored, key)) == Measures.Sum(scored, TotalOf)
      && SumOver(ks, SizeOf(scored, key)) == |scored|
      && (forall k | k in ks :: Part(rows, key, k) == Group(scored, key, k))
  {
    var scored := ScoredRows(rows);
    OneMakeIsComparable(rows);
    AllAreInGroups(scored, key);
    GroupsConserve(ks, scored, key, TotalOf);
    GroupsConserve(ks, scored, key, One);
    OnesAreTheLength(scored);
    forall k | k in ks
      ensures SizeOf(scored, key)(k) == GroupSum(scored, key, One)(k)
      ensures Part(rows, key, k) == Group(scored, key, k)
    {
      OnesAreTheLength(Group(scored, key, k));
      ScoredOfAGroup(rows, key, k);
      OneMakeIsComparable(Group(rows, key, k));
    }
    SumsAgree(ks, SizeOf(scored, key), GroupSum(scored, key, One));
  }

  lemma {:induction false} MeanIsNearest(rows: seq<Row>)
    requires rows != []
    ensures Nearest(Mean(rows), Measures.Sum(rows, TotalOf), |rows|)
  {
    SpellingsAgree(Measures.Sum(rows, TotalOf), |rows|);
  }

  lemma {:induction false} SomePartIsNoHigher<K>(ks: seq<K>, rows: seq<Row>, key: Row -> Option<K>) returns (k: K)
    requires Distinct(ks) && Lists(ks, rows, key) && OneMake(rows)
    requires forall r | r in rows :: key(r).Some?
    requires Comparable(rows) != []
    ensures k in ks && Part(rows, key, k) != [] && Mean(Part(rows, key, k)) <= Mean(Comparable(rows))
  {
    hide Mean, Comparable, ScoredRows, Part, Nearest, Distinct;
    var scored := ScoredRows(rows);
    PartsConserve(ks, rows, key);
    MeanIsNearest(scored);
    var m := Mean(scored);
    var s, n := TotalsOf(scored, key), SizeOf(scored, key);
    var h := (k: K) => 2 * s(k) - n(k) * (2 * m + 1);
    SumsOfTwo(ks, s, n, h, 2 * m + 1);
    JustBelow(Measures.Sum(scored, TotalOf), |scored|, m);
    SomeIsNegative(ks, h);
    k :| k in ks && h(k) < 0;
    var part := Group(scored, key, k);
    assert part == [] ==> s(k) == 0 && n(k) == 0;
    MeanIsNearest(part);
    MeanFromAbove(s(k), n(k), Mean(part), m);
  }

  lemma {:induction false} JustBelow(s: int, n: int, m: int)
    requires Nearest(m, s, n)
    ensures 2 * s - n * (2 * m + 1) < 0 <= 2 * s - n * (2 * m - 1)
  {
    assert n * (2 * m + 1) == 2 * (n * m) + n;
    assert n * (2 * m - 1) == 2 * (n * m) - n;
  }

  lemma {:induction false} SomePartIsNoLower<K>(ks: seq<K>, rows: seq<Row>, key: Row -> Option<K>) returns (k: K)
    requires Distinct(ks) && Lists(ks, rows, key) && OneMake(rows)
    requires forall r | r in rows :: key(r).Some?
    requires Comparable(rows) != []
    ensures k in ks && Part(rows, key, k) != [] && Mean(Part(rows, key, k)) >= Mean(Comparable(rows))
  {
    hide Mean, Comparable, ScoredRows, Part, Nearest, Distinct;
    var scored := ScoredRows(rows);
    PartsConserve(ks, rows, key);
    MeanIsNearest(scored);
    var m := Mean(scored);
    var s, n := TotalsOf(scored, key), SizeOf(scored, key);
    var h := (k: K) => 2 * s(k) - n(k) * (2 * m - 1);
    SumsOfTwo(ks, s, n, h, 2 * m - 1);
    JustBelow(Measures.Sum(scored, TotalOf), |scored|, m);
    forall k | k in ks
      ensures n(k) >= 0 && (n(k) == 0 ==> h(k) == 0)
    {
      if n(k) == 0 { assert Group(scored, key, k) == []; }
    }
    SomeIsNotNegative(ks, h, n);
    k :| k in ks && n(k) > 0 && h(k) >= 0;
    var part := Group(scored, key, k);
    MeanIsNearest(part);
    MeanFromBelow(s(k), n(k), Mean(part), m);
  }

  /** Under one pair of versions, the rounded mean over all teams lies between the smallest and
      the largest team mean, and so does its band. */
  lemma {:induction false} PooledMeanIsBetweenTeamMeans(users: seq<User>, rows: seq<Row>, c: Config)
    requires var everything := InGroups(rows, AuthorTeam(users)); OneMake(everything) && Comparable(everything) != []
    requires Scoring.BandsFit(c.bands)
    ensures var everything := InGroups(rows, AuthorTeam(users)); var key := AuthorTeam(users);
      exists low, high ::
        && low in Teams(users) && high in Teams(users)
        && Part(everything, key, low) != [] && Part(everything, key, high) != []
        && Mean(Part(everything, key, low)) <= Mean(Comparable(everything)) <= Mean(Part(everything, key, high))
        && (Scoring.BandRank(Scoring.BandOf(c.bands, Mean(Part(everything, key, low))))
            <= Scoring.BandRank(Scoring.BandOf(c.bands, Mean(Comparable(everything))))
            <= Scoring.BandRank(Scoring.BandOf(c.bands, Mean(Part(everything, key, high)))))
  {
    hide Mean, Comparable, Part, Teams, Distinct, OneMake, Scoring.BandOf, Scoring.BandRank;
    var key := AuthorTeam(users);
    var everything := InGroups(rows, key);
    TeamsAreListedOnceInOrder(users, everything);
    PlacedAreKept(rows, key);
    var low := SomePartIsNoHigher(Teams(users), everything, key);
    var high := SomePartIsNoLower(Teams(users), everything, key);
    Scoring.BandsGrow(c.bands, Mean(Part(everything, key, low)), Mean(Comparable(everything)));
    Scoring.BandsGrow(c.bands, Mean(Comparable(everything)), Mean(Part(everything, key, high)));
  }
}
