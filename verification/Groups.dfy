/** Rows split into groups by a key: what the groups add up to. */
module Groups {
  import opened Options
  import opened Rounding
  import opened Measures

  function With<K(==)>(key: Row -> Option<K>, k: K): Row -> bool { (r: Row) => key(r) == Some(k) }

  function Placed<K>(key: Row -> Option<K>): Row -> bool { (r: Row) => key(r).Some? }

  function Group<K(==)>(rows: seq<Row>, key: Row -> Option<K>, k: K): seq<Row> { Filter(rows, With(key, k)) }

  function InGroups<K>(rows: seq<Row>, key: Row -> Option<K>): seq<Row> { Filter(rows, Placed(key)) }

  function SumOver<K>(ks: seq<K>, f: K -> int): int {
    if ks == [] then 0 else f(ks[0]) + SumOver(ks[1..], f)
  }

  ghost predicate Distinct<K>(ks: seq<K>) {
    forall i, j :: 0 <= i < j < |ks| ==> ks[i] != ks[j]
  }

  /** Every key a row has is listed. */
  ghost predicate Lists<K>(ks: seq<K>, rows: seq<Row>, key: Row -> Option<K>) {
    forall r | r in rows :: key(r).Some? ==> key(r).value in ks
  }

  lemma {:induction false} SumsAgree<K>(ks: seq<K>, f: K -> int, g: K -> int)
    requires forall k | k in ks :: f(k) == g(k)
    ensures SumOver(ks, f) == SumOver(ks, g)
  {
    if ks != [] { SumsAgree(ks[1..], f, g); }
  }

  lemma {:induction false} SumsOrdered<K>(ks: seq<K>, f: K -> int, g: K -> int)
    requires forall k | k in ks :: f(k) <= g(k)
    ensures SumOver(ks, f) <= SumOver(ks, g)
  {
    if ks != [] { SumsOrdered(ks[1..], f, g); }
  }

  /** Two sums that differ for one key only. */
  lemma {:induction false} SumsDifferOnce<K>(ks: seq<K>, f: K -> int, g: K -> int, k0: K)
    requires Distinct(ks) && k0 in ks
    requires forall k | k in ks && k != k0 :: f(k) == g(k)
    ensures SumOver(ks, f) - SumOver(ks, g) == f(k0) - g(k0)
  {
    if ks[0] == k0 {
      forall k | k in ks[1..]
        ensures f(k) == g(k)
      {
        var i :| 1 <= i < |ks| && ks[i] == k;
        assert ks[0] != ks[i];
      }
      SumsAgree(ks[1..], f, g);
    } else {
      assert forall i, j :: 0 <= i < j < |ks| - 1 ==> ks[1..][i] == ks[i + 1] && ks[1..][j] == ks[j + 1];
      assert Distinct(ks[1..]);
      SumsDifferOnce(ks[1..], f, g, k0);
    }
  }

  // ----- weights ---------------------------------------------------------------------------

  function GroupSum<K(==)>(rows: seq<Row>, key: Row -> Option<K>, w: Row -> nat): K -> int {
    (k: K) => Sum(Group(rows, key, k), w)
  }

  lemma {:induction false} GroupOfOneMore<K>(rows: seq<Row>, key: Row -> Option<K>, k: K)
    requires rows != []
    ensures Group(rows, key, k) == (if key(rows[0]) == Some(k) then [rows[0]] else []) + Group(rows[1..], key, k)
  {}

  lemma {:induction false} InGroupsOfOneMore<K>(rows: seq<Row>, key: Row -> Option<K>)
    requires rows != []
    ensures InGroups(rows, key) == (if key(rows[0]).Some? then [rows[0]] else []) + InGroups(rows[1..], key)
  {}

  lemma {:induction false} SumOfOneMore(r: Row, rows: seq<Row>, w: Row -> nat)
    ensures Sum([r] + rows, w) == w(r) + Sum(rows, w)
    ensures Sum([] + rows, w) == Sum(rows, w)
  {
    assert ([r] + rows)[1..] == rows;
    assert [] + rows == rows;
  }

  /** Any weight of the rows that have a key is the sum of the groups' weights: no row is lost
      and none is counted twice. */
  lemma {:induction false} GroupsConserve<K>(ks: seq<K>, rows: seq<Row>, key: Row -> Option<K>, w: Row -> nat)
    requires Distinct(ks) && Lists(ks, rows, key)
    ensures SumOver(ks, GroupSum(rows, key, w)) == Sum(InGroups(rows, key), w)
  {
    var f := GroupSum(rows, key, w);
    if rows == [] {
      SumsAgree(ks, f, (k: K) => 0);
      SumOfNothing(ks);
    } else {
      hide Group, InGroups, Distinct;
      var r, rest := rows[0], rows[1..];
      GroupsConserve(ks, rest, key, w);
      InGroupsOfOneMore(rows, key);
      SumOfOneMore(r, InGroups(rest, key), w);
      var g := GroupSum(rest, key, w);
      forall k: K
        ensures f(k) == g(k) + if key(r) == Some(k) then w(r) else 0
      {
        GroupOfOneMore(rows, key, k);
        SumOfOneMore(r, Group(rest, key, k), w);
      }
      if key(r).Some? {
        SumsDifferOnce(ks, f, g, key(r).value);
      } else {
        SumsAgree(ks, f, g);
      }
    }
  }

  lemma {:induction false} SumOfNothing<K>(ks: seq<K>)
    ensures SumOver(ks, (k: K) => 0) == 0
  {
    if ks != [] { SumOfNothing(ks[1..]); }
  }

  function One(r: Row): nat { 1 }

  lemma {:induction false} OnesAreTheLength(rows: seq<Row>)
    ensures Sum(rows, One) == |rows|
  {
    if rows != [] { OnesAreTheLength(rows[1..]); }
  }

  function Is(r: Row): Row -> nat { (x: Row) => if x == r then 1 else 0 }

  lemma {:induction false} OccurrencesAreTheMultiplicity(rows: seq<Row>, r: Row)
    ensures Sum(rows, Is(r)) == multiset(rows)[r]
  {
    if rows != [] {
      OccurrencesAreTheMultiplicity(rows[1..], r);
      assert rows == [rows[0]] + rows[1..];
    }
  }

  /** The weight of the rows of a kind. */
  function Only(p: Row -> bool): Row -> nat { (r: Row) => if p(r) then 1 else 0 }

  lemma {:induction false} FilteredIsTheSum(rows: seq<Row>, p: Row -> bool)
    ensures Sum(rows, Only(p)) == |Filter(rows, p)|
  {
    if rows != [] { FilteredIsTheSum(rows[1..], p); }
  }

  lemma {:induction false} FiltersCommute(rows: seq<Row>, p: Row -> bool, q: Row -> bool)
    ensures Filter(Filter(rows, p), q) == Filter(Filter(rows, q), p)
  {
    if rows != [] {
      var r, rest := rows[0], rows[1..];
      FiltersCommute(rest, p, q);
      FilterOfOneMore(r, Filter(rest, p), q);
      FilterOfOneMore(r, Filter(rest, q), p);
      assert [] + Filter(rest, p) == Filter(rest, p);
      assert [] + Filter(rest, q) == Filter(rest, q);
    }
  }

  lemma {:induction false} FilterOfOneMore(r: Row, rows: seq<Row>, p: Row -> bool)
    ensures Filter([r] + rows, p) == (if p(r) then [r] else []) + Filter(rows, p)
  {
    assert ([r] + rows)[1..] == rows;
  }

  // ----- improvements ----------------------------------------------------------------------

  function GroupImproved<K(==)>(notes: seq<Row>, key: Row -> Option<K>): K -> int {
    (k: K) => ImprovedCount(Group(notes, key, k))
  }

  /** No note id is shared by two groups. */
  ghost predicate OneGroupPerNote<K>(notes: seq<Row>, key: Row -> Option<K>) {
    forall r, s :: r in notes && s in notes && key(r).Some? && key(s).Some? && r.noteId == s.noteId ==> key(r) == key(s)
  }

  lemma {:induction false} ImprovedOfOneMore(r: Row, later: seq<Row>)
    ensures (ImprovedCount([r] + later)
             == (if r.promptSent && ImprovedBy(r, later) then 1 else 0) + ImprovedCount(later))
    ensures ImprovedCount([] + later) == ImprovedCount(later)
  {
    assert ([r] + later)[1..] == later;
    assert [] + later == later;
  }

  /** What became of the asked row `i` among all the rows that have a key shows in its own
      group. */
  ghost predicate ShowsInItsGroup<K>(notes: seq<Row>, key: Row -> Option<K>, i: nat) {
    i < |notes| && key(notes[i]).Some? && notes[i].promptSent
    && ImprovedBy(notes[i], InGroups(notes[i + 1..], key))
    ==> ImprovedBy(notes[i], Group(notes[i + 1..], key, key(notes[i]).value))
  }

  /** Every asked row that has a better later row among all the groups has one in its own. */
  ghost predicate ImprovesWithinGroups<K>(notes: seq<Row>, key: Row -> Option<K>) {
    forall i: nat | i < |notes| :: ShowsInItsGroup(notes, key, i)
  }

  lemma {:induction false} GroupIsAmongGroups<K>(r: Row, rest: seq<Row>, key: Row -> Option<K>, k: K)
    ensures ImprovedBy(r, Group(rest, key, k)) ==> ImprovedBy(r, InGroups(rest, key))
  {}

  lemma {:induction false} ImprovesWithinOneMore<K>(notes: seq<Row>, key: Row -> Option<K>)
    requires notes != []
    ensures var r, rest := notes[0], notes[1..];
      (ImprovesWithinGroups(notes, key)
       <==> ImprovesWithinGroups(rest, key)
            && (key(r).Some? && r.promptSent && ImprovedBy(r, InGroups(rest, key))
                ==> ImprovedBy(r, Group(rest, key, key(r).value))))
  {
    var rest := notes[1..];
    assert ShowsInItsGroup(notes, key, 0) <==>
      (key(notes[0]).Some? && notes[0].promptSent && ImprovedBy(notes[0], InGroups(rest, key))
       ==> ImprovedBy(notes[0], Group(rest, key, key(notes[0]).value)));
    hide ImprovedBy, Group, InGroups;
    forall i: nat | i < |rest|
      ensures ShowsInItsGroup(notes, key, i + 1) <==> ShowsInItsGroup(rest, key, i)
    {
      assert notes[i + 1..][1..] == rest[i..][1..];
      assert notes[i + 2..] == rest[i + 1..];
    }
    forall i: nat | 0 < i < |notes|
      ensures ShowsInItsGroup(notes, key, i) <==> ShowsInItsGroup(rest, key, i - 1)
    {
      assert i - 1 + 1 == i;
    }
  }

  /** No note id in two groups is enough for that. */
  lemma {:induction false} OneGroupIsEnough<K>(notes: seq<Row>, key: Row -> Option<K>)
    requires OneGroupPerNote(notes, key)
    ensures ImprovesWithinGroups(notes, key)
  {
    forall i: nat | i < |notes|
      ensures ShowsInItsGroup(notes, key, i)
    {
      assert forall r | r in notes[i + 1..] :: r in notes;
    }
  }

  lemma {:induction false} GroupedImprovementsOneMore<K>(ks: seq<K>, notes: seq<Row>, key: Row -> Option<K>)
    requires notes != [] && Distinct(ks) && Lists(ks, notes, key)
    ensures var r, rest := notes[0], notes[1..];
      SumOver(ks, GroupImproved(notes, key)) == SumOver(ks, GroupImproved(rest, key))
      + if key(r).Some? && r.promptSent && ImprovedBy(r, Group(rest, key, key(r).value)) then 1 else 0
  {
    hide Group, Distinct, ImprovedBy, ImprovedCount;
    var r, rest := notes[0], notes[1..];
    var f, g := GroupImproved(notes, key), GroupImproved(rest, key);
    forall k: K
      ensures f(k) == g(k) + if key(r) == Some(k) && r.promptSent && ImprovedBy(r, Group(rest, key, k)) then 1 else 0
    {
      GroupOfOneMore(notes, key, k);
      ImprovedOfOneMore(r, Group(rest, key, k));
    }
    if key(r).Some? {
      SumsDifferOnce(ks, f, g, key(r).value);
    } else {
      SumsAgree(ks, f, g);
    }
  }

  lemma {:induction false} PooledImprovementsOneMore<K>(notes: seq<Row>, key: Row -> Option<K>)
    requires notes != []
    ensures var r, rest := notes[0], notes[1..];
      ImprovedCount(InGroups(notes, key)) == ImprovedCount(InGroups(rest, key))
      + if key(r).Some? && r.promptSent && ImprovedBy(r, InGroups(rest, key)) then 1 else 0
  {
    hide InGroups, ImprovedBy, ImprovedCount;
    InGroupsOfOneMore(notes, key);
    ImprovedOfOneMore(notes[0], InGroups(notes[1..], key));
  }

  /** The groups together never show more improvements than the rows pooled; and they show as
      many if and only if every asked row that has a better later row among all the groups has
      one in its own. */
  lemma {:induction false} ImprovementsConserve<K>(ks: seq<K>, notes: seq<Row>, key: Row -> Option<K>)
    requires Distinct(ks) && Lists(ks, notes, key)
    ensures SumOver(ks, GroupImproved(notes, key)) <= ImprovedCount(InGroups(notes, key))
    ensures (SumOver(ks, GroupImproved(notes, key)) == ImprovedCount(InGroups(notes, key))
             <==> ImprovesWithinGroups(notes, key))
  {
    if notes == [] {
      NothingImproves(ks, key);
    } else {
      hide Group, InGroups, Distinct, ImprovedBy, ImprovedCount, ImprovesWithinGroups, SumOver;
      var r, rest := notes[0], notes[1..];
      ImprovementsConserve(ks, rest, key);
      ImprovesWithinOneMore(notes, key);
      GroupedImprovementsOneMore(ks, notes, key);
      PooledImprovementsOneMore(notes, key);
      if key(r).Some? {
        GroupIsAmongGroups(r, rest, key, key(r).value);
      }
    }
  }

  lemma {:induction false} NothingImproves<K>(ks: seq<K>, key: Row -> Option<K>)
    ensures SumOver(ks, GroupImproved([], key)) == ImprovedCount(InGroups([], key))
    ensures ImprovesWithinGroups([], key)
  {
    SumsAgree(ks, GroupImproved([], key), (k: K) => 0);
    SumOfNothing(ks);
  }

  /** When a note moves to another group, the improvement it was asked for is in no group. */
  lemma {:induction false} ASharedNoteIsLost<K>(ks: seq<K>, asked: Row, later: Row, key: Row -> Option<K>)
    requires Distinct(ks) && key(asked).Some? && key(later).Some? && key(asked) != key(later)
    requires asked.promptSent && !later.promptSent && later.noteId == asked.noteId
    requires later.band.Some? && asked.band.None?
    ensures ImprovedCount(InGroups([asked, later], key)) == 1
    ensures SumOver(ks, GroupImproved([asked, later], key)) == 0
  {
    var notes := [asked, later];
    assert notes[1..] == [later];
    FilterKeepsAll(notes, Placed(key));
    assert ImprovedCount([later]) == 0;
    assert later in notes[1..];
    forall k | k in ks
      ensures GroupImproved(notes, key)(k) == 0
    {
      var own := Group(notes, key, k);
      assert Filter([later], With(key, k)) == if key(later) == Some(k) then [later] else [];
      assert own == [asked] || own == [later] || own == [];
    }
    SumsAgree(ks, GroupImproved(notes, key), (k: K) => 0);
    SumOfNothing(ks);
  }
}
