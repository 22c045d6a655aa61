/** Who and what each line of a brief is about, read off the directory and the rows. */
module People {
  import opened Options
  import opened Measures
  import opened Groups
  import opened Brief
  import opened BriefLaws

  // ----- order -----------------------------------------------------------------------------

  ghost predicate FirstDifference(a: string, b: string, n: nat) {
    && n <= |a| && n < |b| && a[..n] == b[..n]
    && (n == |a| || a[n] < b[n])
  }

  /** Names are ordered by their first different character, and a beginning comes before the whole. */
  lemma {:induction false} BeforeIsLexicographic(a: string, b: string)
    ensures Before(a, b) <==> exists n: nat :: FirstDifference(a, b, n)
  {
    if b != "" && a != "" && a[0] == b[0] {
      BeforeIsLexicographic(a[1..], b[1..]);
      if n: nat :| FirstDifference(a, b, n) {
        assert n > 0;
        assert a[..n] == [a[0]] + a[1..][..n - 1] && b[..n] == [b[0]] + b[1..][..n - 1];
        assert a[1..][..n - 1] == a[..n][1..] && b[1..][..n - 1] == b[..n][1..];
        assert FirstDifference(a[1..], b[1..], n - 1);
      }
      if n: nat :| FirstDifference(a[1..], b[1..], n) {
        assert a[..n + 1] == [a[0]] + a[1..][..n] && b[..n + 1] == [b[0]] + b[1..][..n];
        assert FirstDifference(a, b, n + 1);
      }
    } else {
      if Before(a, b) {
        assert FirstDifference(a, b, 0);
      }
      if n: nat :| FirstDifference(a, b, n) {
        if n > 0 {
          assert a[..n][0] == b[..n][0];
        }
      }
    }
  }

  ghost function Called<T>(xs: seq<T>, name: T -> string, called: string): seq<T> {
    if xs == [] then [] else (if name(xs[0]) == called then [xs[0]] else []) + Called(xs[1..], name, called)
  }

  lemma {:induction false} CalledOfOneMore<T>(x: T, xs: seq<T>, name: T -> string, called: string)
    ensures Called([x] + xs, name, called) == (if name(x) == called then [x] else []) + Called(xs, name, called)
  {
    assert ([x] + xs)[1..] == xs;
  }

  lemma {:induction false} InsertIsStable<T>(x: T, sorted: seq<T>, name: T -> string, called: string)
    ensures Called(Insert(x, sorted, name), name, called) == Called([x] + sorted, name, called)
  {
    hide Before, Called;
    if sorted != [] && Before(name(sorted[0]), name(x)) {
      var y, rest := sorted[0], sorted[1..];
      InsertIsStable(x, rest, name, called);
      BeforeIsOneWay(name(y), name(x));
      assert sorted == [y] + rest;
      CalledOfOneMore(y, Insert(x, rest, name), name, called);
      CalledOfOneMore(x, sorted, name, called);
      CalledOfOneMore(x, rest, name, called);
      CalledOfOneMore(y, rest, name, called);
    }
  }

  /** People of one name stay in the order of the directory. */
  lemma {:induction false} SortedIsStable<T>(xs: seq<T>, name: T -> string, called: string)
    ensures Called(Sorted(xs, name), name, called) == Called(xs, name, called)
  {
    if xs != [] {
      SortedIsStable(xs[1..], name, called);
      InsertIsStable(xs[0], Sorted(xs[1..], name), name, called);
      CalledOfOneMore(xs[0], Sorted(xs[1..], name), name, called);
    }
  }

  // ----- the directory ---------------------------------------------------------------------

  /** Entry `i` puts `id` into a team. */
  predicate Names(users: seq<User>, i: nat, id: nat) {
    i < |users| && users[i].id == id && users[i].team.Some?
  }

  /** A person is in the team of the last entry that names one ... */
  lemma {:induction false} LastEntryDecides(users: seq<User>, id: nat, n: nat)
    requires Names(users, n, id) && forall i: nat :: i > n ==> !Names(users, i, id)
    ensures TeamOf(users, id) == users[n].team
  {
    var last := |users| - 1;
    if n < last {
      assert !Names(users, last, id);
      forall i: nat | i > n
        ensures !Names(users[..last], i, id)
      {
        assert !Names(users, i, id);
      }
      LastEntryDecides(users[..last], id, n);
    }
  }

  /** ... and in none without such an entry. */
  lemma {:induction false} NoEntryNoTeam(users: seq<User>, id: nat)
    requires forall i: nat :: !Names(users, i, id)
    ensures TeamOf(users, id) == None
  {
    if users != [] {
      var last := |users| - 1;
      assert !Names(users, last, id);
      forall i: nat
        ensures !Names(users[..last], i, id)
      {
        assert !Names(users, i, id);
      }
      NoEntryNoTeam(users[..last], id);
    }
  }

  /** The members of a team are its entries, each as often as it is listed. */
  lemma {:induction false} MembersAreTheEntries(users: seq<User>, team: string, u: User)
    ensures multiset(Members(users, team))[u] == if u.team == Some(team) then multiset(users)[u] else 0
  {
    if users != [] {
      MembersAreTheEntries(users[1..], team, u);
      assert users == [users[0]] + users[1..];
    }
  }

  lemma {:induction false} IdOfAMember(users: seq<User>, team: string, id: nat)
    ensures id in Ids(Members(users, team)) <==> exists i :: 0 <= i < |users| && users[i].id == id && users[i].team == Some(team)
  {
    var members := Members(users, team);
    if id in Ids(members) {
      var k :| 0 <= k < |members| && Ids(members)[k] == id;
      MembersAreTheEntries(users, team, members[k]);
      assert members[k] in multiset(members) && members[k] in multiset(users);
      var i :| 0 <= i < |users| && users[i] == members[k];
    }
    if i :| 0 <= i < |users| && users[i].id == id && users[i].team == Some(team) {
      MembersAreTheEntries(users, team, users[i]);
      assert users[i] in multiset(users) && users[i] in multiset(members);
      IdIsListed(members, users[i]);
    }
  }

  // ----- the lines -------------------------------------------------------------------------

  lemma {:induction false} LineCounts(name: string, rows: seq<Row>, p: Row -> bool, c: Config)
    requires c.bands != []
    ensures NotesOf(LineFor(name, Filter(rows, p), c)) == |NotesWhere(rows, p)|
    ensures LineFor(name, Filter(rows, p), c).name == name
  {
    FilterTwice(rows, p, IsRepNote);
    var both := (r: Row) => Both(p, IsRepNote, r);
    FilterCounts(rows, both);
    assert Positions(rows, both) == NotesWhere(rows, p);
  }

  lemma {:induction false} LineAt<K>(ks: seq<K>, name: K -> string, rows: K -> seq<Row>, c: Config, i: nat)
    requires c.bands != []
    ensures |LinesBy(ks, name, rows, c)| == |ks|
    ensures i < |ks| ==> LinesBy(ks, name, rows, c)[i] == LineFor(name(ks[i]), rows(ks[i]), c)
  {
    if ks != [] { LineAt(ks[1..], name, rows, c, if i > 0 then i - 1 else 0); }
  }

  lemma {:induction false} SameFilter(rows: seq<Row>, p: Row -> bool, q: Row -> bool)
    requires forall r | r in rows :: p(r) <==> q(r)
    ensures Filter(rows, p) == Filter(rows, q)
  {
    if rows != [] { SameFilter(rows[1..], p, q); }
  }

  /** The author has an entry in the team. */
  ghost function InTeam(users: seq<User>, team: string): Row -> bool {
    (r: Row) => exists k :: 0 <= k < |users| && users[k].id == r.author && users[k].team == Some(team)
  }

  ghost function By(id: nat): Row -> bool { (r: Row) => r.author == id }

  ghost function OfSomeTeam(users: seq<User>): Row -> bool { (r: Row) => TeamOf(users, r.author).Some? }

  ghost function OfTheTeam(users: seq<User>, team: string): Row -> bool { (r: Row) => TeamOf(users, r.author) == Some(team) }

  lemma {:induction false} TeamRowsAreTheTeams(users: seq<User>, team: string, rows: seq<Row>)
    ensures TeamRows(users, team, rows) == Filter(rows, InTeam(users, team))
  {
    var ids := Ids(Members(users, team));
    forall r | r in rows
      ensures Placed(MemberKey(ids))(r) <==> InTeam(users, team)(r)
    {
      IdOfAMember(users, team, r.author);
    }
    SameFilter(rows, Placed(MemberKey(ids)), InTeam(users, team));
  }

  lemma {:induction false} OwnRowsOfAMember(users: seq<User>, team: string, rows: seq<Row>, u: User)
    requires u in Members(users, team)
    ensures ByAuthor(TeamRows(users, team, rows))(u) == Filter(rows, By(u.id))
  {
    var ours, own := InTeam(users, team), By(u.id);
    TeamRowsAreTheTeams(users, team, rows);
    FilterTwice(rows, ours, own);
    IdIsListed(Members(users, team), u);
    IdOfAMember(users, team, u.id);
    SameFilter(rows, (r: Row) => Both(ours, own, r), own);
    SameFilter(TeamRows(users, team, rows), (r: Row) => r.author == u.id, own);
  }

  /** The lines of a team brief: the team, with the notes of everybody an entry puts into it, and then
      each entry of the team in name order, with the notes of that person. */
  lemma {:induction false} TeamBriefIsAboutItsPeople(subject: User, users: seq<User>, rows: seq<Row>, c: Config,
                                                     team: string, i: nat)
    requires c.bands != [] && subject.team == Some(team)
    ensures var b := TeamBrief(subject, users, rows, c); var people := Sorted(Members(users, team), NameOf);
      && |b.lines| == 1 + |people| && b.unattributed == 0
      && b.lines[0].name == "Team " + team && NotesOf(b.lines[0]) == |NotesWhere(rows, InTeam(users, team))|
      && (i < |people| ==>
            && b.lines[i + 1].name == people[i].name
            && NotesOf(b.lines[i + 1]) == |NotesWhere(rows, By(people[i].id))|)
  {
    hide LineFor, NotesOf, Members, Ids, Sorted, Filter, NotesWhere, LinesBy, TeamRows, InTeam, By, ByAuthor;
    var people, teamRows := Sorted(Members(users, team), NameOf), TeamRows(users, team, rows);
    TeamRowsAreTheTeams(users, team, rows);
    LineCounts("Team " + team, rows, InTeam(users, team), c);
    LineAt(people, NameOf, ByAuthor(teamRows), c, i);
    if i < |people| {
      SortedStaysDistinctUsers(Members(users, team));
      OwnRowsOfAMember(users, team, rows, people[i]);
      LineCounts(people[i].name, rows, By(people[i].id), c);
    }
  }

  lemma {:induction false} RowsOfATeam(users: seq<User>, rows: seq<Row>, team: string)
    ensures InGroups(rows, AuthorTeam(users)) == Filter(rows, OfSomeTeam(users))
    ensures ByTeam(users, InGroups(rows, AuthorTeam(users)))(team) == Filter(rows, OfTheTeam(users, team))
  {
    hide TeamOf;
    var everything := InGroups(rows, AuthorTeam(users));
    var placed, own := OfSomeTeam(users), OfTheTeam(users, team);
    SameFilter(rows, Placed(AuthorTeam(users)), placed);
    SameFilter(everything, With(AuthorTeam(users), team), own);
    FilterTwice(rows, placed, own);
    SameFilter(rows, (r: Row) => Both(placed, own, r), own);
  }

  /** The lines of the org brief: all teams, with the notes of everybody who is in one, and then each
      team in name order, with the notes of the people in it; the rows that are left are counted. */
  lemma {:induction false} OrgBriefIsAboutItsTeams(users: seq<User>, rows: seq<Row>, c: Config, i: nat)
    requires c.bands != []
    ensures var b := OrgBrief(users, rows, c); var teams := Teams(users);
      && |b.lines| == 1 + |teams|
      && b.lines[0].name == "All teams" && NotesOf(b.lines[0]) == |NotesWhere(rows, OfSomeTeam(users))|
      && b.unattributed == |rows| - |Positions(rows, OfSomeTeam(users))|
      && (i < |teams| ==>
            && b.lines[i + 1].name == teams[i]
            && NotesOf(b.lines[i + 1]) == |NotesWhere(rows, OfTheTeam(users, teams[i]))|)
  {
    hide LineFor, NotesOf, Teams, TeamOf, Filter, NotesWhere, LinesBy, InGroups, ByTeam, OfSomeTeam, OfTheTeam, Positions;
    var teams := Teams(users);
    var everything := InGroups(rows, AuthorTeam(users));
    RowsOfATeam(users, rows, "");
    LineCounts("All teams", rows, OfSomeTeam(users), c);
    FilterCounts(rows, OfSomeTeam(users));
    LineAt(teams, Itself, ByTeam(users, everything), c, i);
    if i < |teams| {
      RowsOfATeam(users, rows, teams[i]);
      LineCounts(teams[i], rows, OfTheTeam(users, teams[i]), c);
    }
  }

  /** A person's brief is one line, under that person's name, over all rows handed in. */
  lemma {:induction false} RepBriefIsAboutOnePerson(subject: User, users: seq<User>, rows: seq<Row>, c: Config)
    requires c.bands != [] && BuildBrief(Rep, subject, users, rows, c).Some?
    ensures var b := BuildBrief(Rep, subject, users, rows, c).value;
      && |b.lines| == 1 && b.unattributed == 0
      && b.lines[0].name == subject.name && NotesOf(b.lines[0]) == |NotesWhere(rows, Any)|
  {
    hide AnyFigure;
    FilterKeepsAll(rows, Any);
    LineCounts(subject.name, rows, Any, c);
  }
}
