/** What the briefs' figures add up to. */
module BriefLaws {
  import opened Options
  import opened Rounding
  import Scoring
  import opened Measures
  import opened Groups
  import opened Brief

  function NotesOf(l: Line): nat { l.flagged.of }

  function FlaggedOf(l: Line): nat { l.flagged.counted }

  function AskedOf(l: Line): nat { l.improved.of }

  function ImprovedOf(l: Line): nat { l.improved.counted }

  function Total(lines: seq<Line>, figure: Line -> nat): int {
    if lines == [] then 0 else figure(lines[0]) + Total(lines[1..], figure)
  }

  lemma {:induction false} LinesTotal<K>(ks: seq<K>, name: K -> string, rows: K -> seq<Row>, c: Config,
                                         figure: Line -> nat, f: K -> int)
    requires c.bands != []
    requires forall k | k in ks :: figure(LineFor(name(k), rows(k), c)) == f(k)
    ensures Total(LinesBy(ks, name, rows, c), figure) == SumOver(ks, f)
  {
    hide LineFor;
    if ks != [] {
      LinesTotal(ks[1..], name, rows, c, figure, f);
      var line := LineFor(name(ks[0]), rows(ks[0]), c);
      assert ([line] + LinesBy(ks[1..], name, rows, c))[1..] == LinesBy(ks[1..], name, rows, c);
    }
  }

  /** The lines of a breakdown: one a key, over that key's rows. */
  function Breakdown<K(==)>(ks: seq<K>, name: K -> string, rows: seq<Row>, key: Row -> Option<K>, c: Config): seq<Line>
    requires c.bands != []
  {
    LinesBy(ks, name, (k: K) => Group(rows, key, k), c)
  }

  // ----- figures as weights ----------------------------------------------------------------

  function NoteThat(p: Row -> bool): Row -> nat { (r: Row) => if IsRepNote(r) && p(r) then 1 else 0 }

  lemma {:induction false} NotesAreWeighed(rows: seq<Row>, p: Row -> bool)
    ensures |Filter(RepNotes(rows), p)| == Sum(rows, NoteThat(p))
  {
    if rows != [] {
      NotesAreWeighed(rows[1..], p);
      FilterOfOneMore(rows[0], RepNotes(rows[1..]), p);
      assert [] + RepNotes(rows[1..]) == RepNotes(rows[1..]);
    }
  }

  predicate Any(r: Row) { true }

  lemma {:induction false} AllAreInGroups<K>(rows: seq<Row>, key: Row -> Option<K>)
    requires forall r | r in rows :: key(r).Some?
    ensures InGroups(rows, key) == rows
  {
    FilterKeepsAll(rows, Placed(key));
  }

  /** The figures that are plain counts of notes add up. */
  lemma {:induction false} CountsAddUp<K>(ks: seq<K>, rows: seq<Row>, key: Row -> Option<K>, p: Row -> bool,
                                        f: K -> int)
    requires Distinct(ks) && Lists(ks, rows, key)
    requires forall r | r in rows :: key(r).Some?
    requires forall k | k in ks :: f(k) == |Filter(RepNotes(Group(rows, key, k)), p)|
    ensures SumOver(ks, f) == |Filter(RepNotes(rows), p)|
  {
    GroupsConserve(ks, rows, key, NoteThat(p));
    AllAreInGroups(rows, key);
    NotesAreWeighed(rows, p);
    forall k | k in ks
      ensures f(k) == GroupSum(rows, key, NoteThat(p))(k)
    {
      NotesAreWeighed(Group(rows, key, k), p);
    }
    SumsAgree(ks, f, GroupSum(rows, key, NoteThat(p)));
  }

  lemma {:induction false} AllNotesPass(rows: seq<Row>)
    ensures Filter(RepNotes(rows), Any) == RepNotes(rows)
  {
    FilterKeepsAll(RepNotes(rows), Any);
  }

  /** Broken down by a key that every row has, the note, flag and ask counts add up to the line
      over the rows pooled; the improvements add up to no more, and to exactly that if and
      only if every asked row that has a better later row has one under its own key. */
  lemma {:induction false} BreakdownAddsUp<K>(ks: seq<K>, name: K -> string, rows: seq<Row>, key: Row -> Option<K>,
                                              c: Config, pooled: string)
    requires c.bands != [] && Distinct(ks) && Lists(ks, rows, key)
    requires forall r | r in rows :: key(r).Some?
    ensures var whole, parts := LineFor(pooled, rows, c), Breakdown(ks, name, rows, key, c);
      && Total(parts, NotesOf) == NotesOf(whole)
      && Total(parts, FlaggedOf) == FlaggedOf(whole)
      && Total(parts, AskedOf) == AskedOf(whole)
      && Total(parts, ImprovedOf) <= ImprovedOf(whole)
      && (Total(parts, ImprovedOf) == ImprovedOf(whole) <==> ImprovesWithinGroups(RepNotes(rows), key))
  {
    var group := (k: K) => Group(rows, key, k);
    CountTotals(ks, name, rows, key, c, NotesOf, Any);
    CountTotals(ks, name, rows, key, c, FlaggedOf, IsFlagged);
    CountTotals(ks, name, rows, key, c, AskedOf, IsAsked);
    ImprovementTotals(ks, name, rows, key, c);
    AllNotesPass(rows);
  }

  lemma {:induction false} CountTotals<K>(ks: seq<K>, name: K -> string, rows: seq<Row>, key: Row -> Option<K>,
                                          c: Config, figure: Line -> nat, p: Row -> bool)
    requires c.bands != [] && Distinct(ks) && Lists(ks, rows, key)
    requires forall r | r in rows :: key(r).Some?
    requires (figure == NotesOf && p == Any) || (figure == FlaggedOf && p == IsFlagged) || (figure == AskedOf && p == IsAsked)
    ensures Total(Breakdown(ks, name, rows, key, c), figure) == |Filter(RepNotes(rows), p)|
  {
    var f := (k: K) => |Filter(RepNotes(Group(rows, key, k)), p)|;
    forall k | k in ks
      ensures figure(LineFor(name(k), Group(rows, key, k), c)) == f(k)
    {
      AllNotesPass(Group(rows, key, k));
    }
    LinesTotal(ks, name, (k: K) => Group(rows, key, k), c, figure, f);
    CountsAddUp(ks, rows, key, p, f);
  }

  lemma {:induction false} ImprovementTotals<K>(ks: seq<K>, name: K -> string, rows: seq<Row>,
                                        key: Row -> Option<K>, c: Config)
    requires c.bands != [] && Distinct(ks) && Lists(ks, rows, key)
    requires forall r | r in rows :: key(r).Some?
    ensures var total := Total(Breakdown(ks, name, rows, key, c), ImprovedOf);
      && total <= ImprovedCount(RepNotes(rows))
      && (total == ImprovedCount(RepNotes(rows)) <==> ImprovesWithinGroups(RepNotes(rows), key))
  {
    var notes := RepNotes(rows);
    var f := GroupImproved(notes, key);
    forall k | k in ks
      ensures ImprovedOf(LineFor(name(k), Group(rows, key, k), c)) == f(k)
    {
      FiltersCommute(rows, With(key, k), IsRepNote);
    }
    LinesTotal(ks, name, (k: K) => Group(rows, key, k), c, ImprovedOf, f);
    ImprovementsConserve(ks, notes, key);
    AllAreInGroups(notes, key);
  }

  // ----- teams -----------------------------------------------------------------------------

  lemma {:induction false} TeamNamesAreTeams(users: seq<User>, all: seq<User>, id: nat)
    ensures Distinct(TeamNames(users, all))
    ensures (exists u | u in users :: u.id == id) && TeamOf(all, id).Some? ==> TeamOf(all, id).value in TeamNames(users, all)
  {
    if users != [] {
      var front, last := users[..|users| - 1], users[|users| - 1];
      TeamNamesAreTeams(front, all, id);
      assert users == front + [last];
      assert forall u | u in users :: u == last || u in front;
    }
  }

  lemma {:induction false} TeamedAreListed(users: seq<User>, id: nat)
    ensures TeamOf(users, id).Some? ==> exists u | u in users :: u.id == id
  {
    if users != [] {
      var front, last := users[..|users| - 1], users[|users| - 1];
      TeamedAreListed(front, id);
      assert last in users && forall u | u in front :: u in users;
    }
  }

  lemma {:induction false} SortedStaysDistinct<T>(xs: seq<T>, name: T -> string)
    ensures Distinct(Sorted(xs, name)) <==> Distinct(xs)
    ensures forall x :: x in Sorted(xs, name) <==> x in xs
  {
    var ys := Sorted(xs, name);
    SortedKeeps(xs, name);
    DistinctByCounting(xs);
    DistinctByCounting(ys);
    forall x
      ensures x in ys <==> x in xs
    {
      assert x in ys <==> x in multiset(ys);
      assert x in xs <==> x in multiset(xs);
    }
  }

  /** The org brief names each team once, in order, and every author that has a team is in one
      of them. */
  lemma {:induction false} TeamsAreListedOnceInOrder(users: seq<User>, rows: seq<Row>)
    ensures Distinct(Teams(users)) && InOrder(Teams(users), Itself)
    ensures Lists(Teams(users), rows, AuthorTeam(users))
  {
    SortedKeeps(TeamNames(users, users), Itself);
    SortedStaysDistinct(TeamNames(users, users), Itself);
    TeamNamesAreTeams(users, users, 0);
    forall r | r in rows && AuthorTeam(users)(r).Some?
      ensures AuthorTeam(users)(r).value in Teams(users)
    {
      TeamedAreListed(users, r.author);
      TeamNamesAreTeams(users, users, r.author);
    }
  }

  lemma {:induction false} KeptAndDropped(rows: seq<Row>, key: Row -> Option<string>, r: Row)
    ensures multiset(InGroups(rows, key))[r] == if key(r).Some? then multiset(rows)[r] else 0
  {
    if rows != [] {
      KeptAndDropped(rows[1..], key, r);
      assert rows == [rows[0]] + rows[1..];
      var rest := InGroups(rows[1..], key);
      assert [] + rest == rest;
      assert InGroups(rows, key) == (if key(rows[0]).Some? then [rows[0]] else []) + rest;
    }
  }

  function TeamMultiplicity(users: seq<User>, rows: seq<Row>, r: Row): string -> int {
    (t: string) => multiset(Group(rows, AuthorTeam(users), t))[r]
  }

  /** The teams' row sets and the unattributed rows are a partition of the rows: every row is in
      exactly one of them, as often as it was given, and the brief says how many are in none. */
  lemma {:induction false} TeamsPartitionTheRows(users: seq<User>, rows: seq<Row>, r: Row)
    ensures multiset(rows)[r]
         == SumOver(Teams(users), TeamMultiplicity(users, rows, r))
            + if TeamOf(users, r.author).None? then multiset(rows)[r] else 0
    ensures |rows| == |InGroups(rows, AuthorTeam(users))| + |Filter(rows, Unattributed(users))|
  {
    var key, ks := AuthorTeam(users), Teams(users);
    TeamsAreListedOnceInOrder(users, rows);
    GroupsConserve(ks, rows, key, Is(r));
    forall t | t in ks
      ensures TeamMultiplicity(users, rows, r)(t) == GroupSum(rows, key, Is(r))(t)
    {
      OccurrencesAreTheMultiplicity(Group(rows, key, t), r);
    }
    SumsAgree(ks, TeamMultiplicity(users, rows, r), GroupSum(rows, key, Is(r)));
    OccurrencesAreTheMultiplicity(InGroups(rows, key), r);
    KeptAndDropped(rows, key, r);
    SplitInTwo(rows, users);
  }

  function Unattributed(users: seq<User>): Row -> bool { (r: Row) => TeamOf(users, r.author).None? }

  lemma {:induction false} SplitInTwo(rows: seq<Row>, users: seq<User>)
    ensures |rows| == |InGroups(rows, AuthorTeam(users))| + |Filter(rows, Unattributed(users))|
  {
    if rows != [] { SplitInTwo(rows[1..], users); }
  }

  lemma {:induction false} PlacedAreKept<K>(rows: seq<Row>, key: Row -> Option<K>)
    ensures forall r | r in InGroups(rows, key) :: key(r).Some?
  {}

  /** The org brief: the team lines add up to the line over all teams. */
  lemma {:induction false} OrgBriefAddsUp(users: seq<User>, rows: seq<Row>, c: Config)
    requires c.bands != []
    ensures var b := OrgBrief(users, rows, c);
      && b.lines != []
      && b.unattributed == |Filter(rows, Unattributed(users))|
      && Total(b.lines[1..], NotesOf) == NotesOf(b.lines[0])
      && Total(b.lines[1..], FlaggedOf) == FlaggedOf(b.lines[0])
      && Total(b.lines[1..], AskedOf) == AskedOf(b.lines[0])
      && Total(b.lines[1..], ImprovedOf) <= ImprovedOf(b.lines[0])
      && (Total(b.lines[1..], ImprovedOf) == ImprovedOf(b.lines[0])
          <==> ImprovesWithinGroups(RepNotes(InGroups(rows, AuthorTeam(users))), AuthorTeam(users)))
  {
    var key := AuthorTeam(users);
    var everything := InGroups(rows, key);
    TeamsAreListedOnceInOrder(users, everything);
    PlacedAreKept(rows, key);
    SplitInTwo(rows, users);
    BreakdownAddsUp(Teams(users), Itself, everything, key, c, "All teams");
    SameRowsSameLines(Teams(users), Itself, ByTeam(users, everything), (t: string) => Group(everything, key, t), c);
    var b := OrgBrief(users, rows, c);
    assert b.lines[1..] == LinesBy(Teams(users), Itself, ByTeam(users, everything), c);
  }

  lemma {:induction false} SameRowsSameLines<K>(ks: seq<K>, name: K -> string, f: K -> seq<Row>, g: K -> seq<Row>,
                                        c: Config)
    requires c.bands != []
    requires forall k | k in ks :: f(k) == g(k)
    ensures LinesBy(ks, name, f, c) == LinesBy(ks, name, g, c)
  {
    if ks != [] { SameRowsSameLines(ks[1..], name, f, g, c); }
  }

  // ----- people ----------------------------------------------------------------------------

  lemma {:induction false} IdsAreSummed(people: seq<User>, f: User -> int, g: nat -> int)
    requires forall u | u in people :: f(u) == g(u.id)
    ensures SumOver(people, f) == SumOver(Ids(people), g)
  {
    if people != [] {
      IdsAreSummed(people[1..], f, g);
      assert Ids(people)[1..] == Ids(people[1..]);
    }
  }

  lemma {:induction false} InsertAddsTheId(u: User, people: seq<User>)
    ensures multiset(Ids(Insert(u, people, NameOf))) == multiset{u.id} + multiset(Ids(people))
  {
    if people != [] && Before(NameOf(people[0]), NameOf(u)) {
      InsertAddsTheId(u, people[1..]);
      assert Ids(people) == [people[0].id] + Ids(people[1..]);
    }
  }

  lemma {:induction false} SortedHaveTheSameIds(people: seq<User>)
    ensures multiset(Ids(Sorted(people, NameOf))) == multiset(Ids(people))
  {
    if people != [] {
      SortedHaveTheSameIds(people[1..]);
      InsertAddsTheId(people[0], Sorted(people[1..], NameOf));
      assert Ids(people) == [people[0].id] + Ids(people[1..]);
    }
  }

  /** Listing people in another order neither adds nor drops an id. */
  lemma {:induction false} SortedIds(people: seq<User>)
    ensures Distinct(Ids(Sorted(people, NameOf))) <==> Distinct(Ids(people))
    ensures forall id :: id in Ids(Sorted(people, NameOf)) <==> id in Ids(people)
  {
    var a, b := Ids(Sorted(people, NameOf)), Ids(people);
    SortedHaveTheSameIds(people);
    DistinctByCounting(a);
    DistinctByCounting(b);
    forall id
      ensures id in a <==> id in b
    {
      assert id in a <==> id in multiset(a);
      assert id in b <==> id in multiset(b);
    }
  }

  function NoName(id: nat): string { "" }

  lemma {:induction false} IdIsListed(people: seq<User>, u: User)
    requires u in people
    ensures u.id in Ids(people)
  {
    var i :| 0 <= i < |people| && people[i] == u;
    assert Ids(people)[i] == u.id;
  }

  lemma {:induction false} OwnRows(rows: seq<Row>, ids: seq<nat>, u: User)
    requires u.id in ids
    ensures ByAuthor(rows)(u) == Group(rows, MemberKey(ids), u.id)
  {
    if rows != [] { OwnRows(rows[1..], ids, u); }
  }

  lemma {:induction false} NamesDoNotCount(name: string, rows: seq<Row>, c: Config, figure: Line -> nat)
    requires c.bands != []
    requires figure == NotesOf || figure == FlaggedOf || figure == AskedOf || figure == ImprovedOf
    ensures figure(LineFor(name, rows, c)) == figure(LineFor("", rows, c))
  {
    hide AverageBand, FlaggedShare, ImprovedShare;
    var a, b := LineFor(name, rows, c), LineFor("", rows, c);
    assert NotesOf(a) == NotesOf(b) && FlaggedOf(a) == FlaggedOf(b);
    assert AskedOf(a) == AskedOf(b) && ImprovedOf(a) == ImprovedOf(b);
  }

  lemma {:induction false} PeopleTotal(people: seq<User>, ids: seq<nat>, rows: seq<Row>, c: Config, figure: Line -> nat)
    requires c.bands != [] && forall u | u in people :: u.id in ids
    requires figure == NotesOf || figure == FlaggedOf || figure == AskedOf || figure == ImprovedOf
    ensures Total(LinesBy(people, NameOf, ByAuthor(rows), c), figure)
         == Total(Breakdown(Ids(people), NoName, rows, MemberKey(ids), c), figure)
  {
    var g := (id: nat) => figure(LineFor("", Group(rows, MemberKey(ids), id), c));
    var f := (u: User) => g(u.id);
    forall u | u in people
      ensures figure(LineFor(NameOf(u), ByAuthor(rows)(u), c)) == f(u)
    {
      OwnRows(rows, ids, u);
      NamesDoNotCount(NameOf(u), ByAuthor(rows)(u), c, figure);
    }
    LinesTotal(people, NameOf, ByAuthor(rows), c, figure, f);
    LinesTotal(Ids(people), NoName, (id: nat) => Group(rows, MemberKey(ids), id), c, figure, g);
    IdsAreSummed(people, f, g);
  }

  /** The team brief: when nobody is listed twice, the people add up to the team. */
  lemma {:induction false} TeamBriefAddsUp(subject: User, users: seq<User>, rows: seq<Row>, c: Config)
    requires c.bands != [] && subject.team.Some?
    requires Distinct(Ids(Members(users, subject.team.value)))
    ensures var lines := TeamBrief(subject, users, rows, c).lines;
      && lines != []
      && Total(lines[1..], NotesOf) == NotesOf(lines[0])
      && Total(lines[1..], FlaggedOf) == FlaggedOf(lines[0])
      && Total(lines[1..], AskedOf) == AskedOf(lines[0])
      && Total(lines[1..], ImprovedOf) <= ImprovedOf(lines[0])
      && (Total(lines[1..], ImprovedOf) == ImprovedOf(lines[0])
          <==> ImprovesWithinGroups(RepNotes(TeamRows(users, subject.team.value, rows)),
                                    MemberKey(Ids(Members(users, subject.team.value)))))
  {
    hide LineFor, LinesBy, InGroups, Sorted, Members, Ids, Total, Distinct, RepNotes, ImprovesWithinGroups;
    var members := Members(users, subject.team.value);
    var ids, people := Ids(members), Sorted(members, NameOf);
    var teamRows := TeamRows(users, subject.team.value, rows);
    SortedIds(members);
    PlacedAreKept(rows, MemberKey(ids));
    SortedStaysDistinctUsers(members);
    forall u | u in people
      ensures u.id in ids
    {
      IdIsListed(members, u);
    }
    PeopleTotal(people, ids, teamRows, c, NotesOf);
    PeopleTotal(people, ids, teamRows, c, FlaggedOf);
    PeopleTotal(people, ids, teamRows, c, AskedOf);
    PeopleTotal(people, ids, teamRows, c, ImprovedOf);
    BreakdownAddsUp(Ids(people), NoName, teamRows, MemberKey(ids), c, "Team " + subject.team.value);
    var lines := TeamBrief(subject, users, rows, c).lines;
    assert lines[1..] == LinesBy(people, NameOf, ByAuthor(teamRows), c);
  }

  lemma {:induction false} SortedStaysDistinctUsers(members: seq<User>)
    ensures forall u :: u in Sorted(members, NameOf) <==> u in members
  {
    SortedStaysDistinct(members, NameOf);
  }

  function Counts(x: nat): nat -> int { (id: nat) => if id == x then 1 else 0 }

  lemma {:induction false} OccurrencesAreSummed(ids: seq<nat>, x: nat)
    ensures SumOver(ids, Counts(x)) == multiset(ids)[x]
  {
    if ids != [] {
      OccurrencesAreSummed(ids[1..], x);
      assert ids == [ids[0]] + ids[1..];
    }
  }

  lemma {:induction false} OneRowOverPeople(people: seq<User>, c: Config, r: Row)
    requires c.bands != [] && IsRepNote(r)
    ensures Total(LinesBy(people, NameOf, ByAuthor([r]), c), NotesOf) == multiset(Ids(people))[r.author]
  {
    hide Ids, SumOver, Total, AverageBand, ImprovedShare;
    var f := (u: User) => Counts(r.author)(u.id);
    forall u | u in people
      ensures NotesOf(LineFor(NameOf(u), ByAuthor([r])(u), c)) == f(u)
    {
      NotesOfOne(r, u, c);
      assert NameOf(u) == u.name;
      assert Counts(r.author)(u.id) == if u.id == r.author then 1 else 0;
    }
    LinesTotal(people, NameOf, ByAuthor([r]), c, NotesOf, f);
    IdsAreSummed(people, f, Counts(r.author));
    OccurrencesAreSummed(Ids(people), r.author);
  }

  /** And when somebody is, that person's note is counted once for the team and once for every
      entry. */
  lemma {:induction false} ListedTwiceIsCountedTwice(subject: User, users: seq<User>, c: Config, r: Row)
    requires c.bands != [] && subject.team.Some? && IsRepNote(r)
    requires r.author in Ids(Members(users, subject.team.value))
    ensures var lines := TeamBrief(subject, users, [r], c).lines;
      && lines != []
      && NotesOf(lines[0]) == 1
      && Total(lines[1..], NotesOf) == multiset(Ids(Members(users, subject.team.value)))[r.author]
  {
    hide Ids, Members, Sorted, Total, LinesBy, AverageBand, ImprovedShare, InGroups;
    var members := Members(users, subject.team.value);
    var people := Sorted(members, NameOf);
    AllAreInGroups([r], MemberKey(Ids(members)));
    SortedHaveTheSameIds(members);
    OneRowOverPeople(people, c, r);
    assert RepNotes([r]) == [r];
    var lines := TeamBrief(subject, users, [r], c).lines;
    assert lines[1..] == LinesBy(people, NameOf, ByAuthor([r]), c);
  }

  lemma {:induction false} NotesOfOne(r: Row, u: User, c: Config)
    requires c.bands != [] && IsRepNote(r)
    ensures NotesOf(LineFor(u.name, ByAuthor([r])(u), c)) == if u.id == r.author then 1 else 0
  {
    var own := ByAuthor([r])(u);
    assert own == if u.id == r.author then [r] else [];
    assert RepNotes([r]) == [r];
  }

  ghost predicate PeopleAddUp(subject: User, users: seq<User>, rows: seq<Row>, c: Config)
    requires c.bands != [] && subject.team.Some?
  {
    var lines := TeamBrief(subject, users, rows, c).lines;
    Total(lines[1..], NotesOf) == NotesOf(lines[0])
  }

  /** So the people add up to the team, whatever the rows, exactly when the directory lists
      nobody of the team twice. */
  lemma {:induction false} PeopleAddUpExactlyWhenListedOnce(subject: User, users: seq<User>, c: Config)
    requires c.bands != [] && subject.team.Some?
    ensures (Distinct(Ids(Members(users, subject.team.value)))
             <==> forall rows :: PeopleAddUp(subject, users, rows, c))
  {
    hide TeamBrief, Total, Ids, Members;
    var ids := Ids(Members(users, subject.team.value));
    if Distinct(ids) {
      forall rows
        ensures PeopleAddUp(subject, users, rows, c)
      {
        TeamBriefAddsUp(subject, users, rows, c);
      }
    } else {
      DistinctByCounting(ids);
      var x :| x in ids && multiset(ids)[x] != 1;
      var r := Row(1, x, None, None, None, "", "", false, false);
      ListedTwiceIsCountedTwice(subject, users, c, r);
      assert !PeopleAddUp(subject, users, [r], c);
    }
  }

  // ----- what is sent ----------------------------------------------------------------------

  predicate Enough(rows: seq<Row>, c: Config) { |RepNotes(rows)| > 0 && |RepNotes(rows)| >= c.floor }

  lemma {:induction false} FilterShrinks(rows: seq<Row>, p: Row -> bool)
    ensures |RepNotes(Filter(rows, p))| <= |RepNotes(rows)|
  {
    FiltersCommute(rows, p, IsRepNote);
  }

  /** A line has a figure exactly when there are enough notes under it: the flagged share is
      never the one that is missing. */
  lemma {:induction false} AFigureNeedsEnoughNotes(name: string, rows: seq<Row>, c: Config)
    requires c.bands != []
    ensures LineFor(name, rows, c).HasAFigure() <==> Enough(rows, c)
  {
    hide Filter, Comparable, Mean;
    PercentsStayInRange(rows, c);
    ComparableAreTheLatestMake(rows);
  }

  lemma {:induction false} NoPartWithoutTheWhole<K>(ks: seq<K>, name: K -> string, rows: K -> seq<Row>, c: Config,
                                        whole: seq<Row>)
    requires c.bands != []
    requires forall k | k in ks :: |RepNotes(rows(k))| <= |RepNotes(whole)|
    ensures AnyFigure(LinesBy(ks, name, rows, c)) ==> Enough(whole, c)
  {
    hide LineFor;
    if ks != [] {
      AFigureNeedsEnoughNotes(name(ks[0]), rows(ks[0]), c);
      NoPartWithoutTheWhole(ks[1..], name, rows, c, whole);
      var rest := LinesBy(ks[1..], name, rows, c);
      if AnyFigure(LinesBy(ks, name, rows, c)) {
        var i :| 0 <= i < |LinesBy(ks, name, rows, c)| && LinesBy(ks, name, rows, c)[i].HasAFigure();
        assert i > 0 ==> rest[i - 1].HasAFigure();
      }
    }
  }

  lemma {:induction false} FirstLineDecides(line: Line, rest: seq<Line>)
    requires AnyFigure(rest) ==> line.HasAFigure()
    ensures AnyFigure([line] + rest) <==> line.HasAFigure()
  {
    var all := [line] + rest;
    assert all[0] == line && forall i | 0 <= i < |rest| :: all[i + 1] == rest[i];
    if AnyFigure(all) {
      var i :| 0 <= i < |all| && all[i].HasAFigure();
      assert i > 0 ==> rest[i - 1].HasAFigure();
    }
  }

  /** A brief is sent exactly when the rows it is about hold enough notes: the person's, the
      team's pooled, or those of everybody in a team; never to somebody without a team. */
  lemma {:induction false} BriefIsSentExactlyWithEnoughNotes(role: Role, subject: User, users: seq<User>,
                                        rows: seq<Row>, c: Config)
    requires c.bands != []
    ensures (BuildBrief(role, subject, users, rows, c).Some?
             <==> match role
                  case Rep => Enough(rows, c)
                  case TeamLeader => subject.team.Some? && Enough(TeamRows(users, subject.team.value, rows), c)
                  case HeadOfSales => Enough(InGroups(rows, AuthorTeam(users)), c))
  {
    hide LineFor, LinesBy, Enough, InGroups, Sorted, Members, TeamNames, AnyFigure;
    match role {
      case Rep =>
        AFigureNeedsEnoughNotes(subject.name, rows, c);
        NoFigureInNothing();
        FirstLineDecides(LineFor(subject.name, rows, c), []);
        assert [LineFor(subject.name, rows, c)] + [] == [LineFor(subject.name, rows, c)];
      case TeamLeader =>
        if subject.team.None? {
          NoFigureInNothing();
        } else {
          TeamBriefFigures(subject, users, rows, c);
        }
      case HeadOfSales =>
        OrgBriefFigures(users, rows, c);
    }
  }

  lemma {:induction false} NoFigureInNothing()
    ensures !AnyFigure([])
  {}

  lemma {:induction false} TeamBriefFigures(subject: User, users: seq<User>, rows: seq<Row>, c: Config)
    requires c.bands != [] && subject.team.Some?
    ensures (AnyFigure(TeamBrief(subject, users, rows, c).lines)
             <==> Enough(TeamRows(users, subject.team.value, rows), c))
  {
    hide LineFor, LinesBy, Enough, TeamRows, Sorted, Members, AnyFigure;
    var team := subject.team.value;
    var teamRows, people := TeamRows(users, team, rows), Sorted(Members(users, team), NameOf);
    AFigureNeedsEnoughNotes("Team " + team, teamRows, c);
    forall u | u in people
      ensures |RepNotes(ByAuthor(teamRows)(u))| <= |RepNotes(teamRows)|
    {
      OwnNotesAreFewer(teamRows, u);
    }
    NoPartWithoutTheWhole(people, NameOf, ByAuthor(teamRows), c, teamRows);
    FirstLineDecides(LineFor("Team " + team, teamRows, c), LinesBy(people, NameOf, ByAuthor(teamRows), c));
  }

  lemma {:induction false} OwnNotesAreFewer(rows: seq<Row>, u: User)
    ensures |RepNotes(ByAuthor(rows)(u))| <= |RepNotes(rows)|
  {
    OwnRows(rows, [u.id], u);
    FilterShrinks(rows, With(MemberKey([u.id]), u.id));
  }

  lemma {:induction false} OrgBriefFigures(users: seq<User>, rows: seq<Row>, c: Config)
    requires c.bands != []
    ensures (AnyFigure(OrgBrief(users, rows, c).lines)
             <==> Enough(InGroups(rows, AuthorTeam(users)), c))
  {
    hide LineFor, LinesBy, Enough, InGroups, Teams, AnyFigure;
    var everything := InGroups(rows, AuthorTeam(users));
    AFigureNeedsEnoughNotes("All teams", everything, c);
    forall t | t in Teams(users)
      ensures |RepNotes(ByTeam(users, everything)(t))| <= |RepNotes(everything)|
    {
      FilterShrinks(everything, With(AuthorTeam(users), t));
    }
    NoPartWithoutTheWhole(Teams(users), Itself, ByTeam(users, everything), c, everything);
    FirstLineDecides(LineFor("All teams", everything, c), LinesBy(Teams(users), Itself, ByTeam(users, everything), c));
  }
}
