/** The three role briefs: the same three measures over one person's rows, over a team's rows
    pooled and person by person, and over all teams pooled and team by team. */
module Brief {
  import opened Options
  import opened Rounding
  import Scoring
  import opened Measures
  import opened Groups

  datatype Role = Rep | TeamLeader | HeadOfSales

  datatype User = User(id: nat, name: string, team: Option<string>)

  datatype Line = Line(name: string, band: BandMeasure, flagged: ShareMeasure, improved: ShareMeasure)
  {
    predicate HasAFigure() {
      band.suppressed.None? || flagged.suppressed.None? || improved.suppressed.None?
    }
  }

  datatype Brief = Brief(lines: seq<Line>, unattributed: nat)

  function LineFor(name: string, rows: seq<Row>, c: Config): Line
    requires c.bands != []
  {
    Line(name, AverageBand(rows, c), FlaggedShare(rows, c), ImprovedShare(rows, c))
  }

  function LinesBy<K>(ks: seq<K>, name: K -> string, rows: K -> seq<Row>, c: Config): seq<Line>
    requires c.bands != []
  {
    if ks == [] then [] else [LineFor(name(ks[0]), rows(ks[0]), c)] + LinesBy(ks[1..], name, rows, c)
  }

  // ----- names in order --------------------------------------------------------------------

  predicate Before(a: string, b: string) {
    if b == "" then false
    else if a == "" then true
    else if a[0] != b[0] then a[0] < b[0]
    else Before(a[1..], b[1..])
  }

  /** Before everything it does not follow, so that equals keep their order. */
  function Insert<T>(x: T, sorted: seq<T>, name: T -> string): seq<T> {
    if sorted == [] || !Before(name(sorted[0]), name(x)) then [x] + sorted
    else [sorted[0]] + Insert(x, sorted[1..], name)
  }

  function Sorted<T>(xs: seq<T>, name: T -> string): seq<T> {
    if xs == [] then [] else Insert(xs[0], Sorted(xs[1..], name), name)
  }

  ghost predicate InOrder<T>(xs: seq<T>, name: T -> string) {
    forall i, j :: 0 <= i < j < |xs| ==> !Before(name(xs[j]), name(xs[i]))
  }

  // ----- who is in which team --------------------------------------------------------------

  /** A person listed twice is in the team of the last entry that names one. */
  function TeamOf(users: seq<User>, id: nat): Option<string> {
    if users == [] then None
    else
      var last := users[|users| - 1];
      if last.id == id && last.team.Some? then last.team else TeamOf(users[..|users| - 1], id)
  }

  function AuthorTeam(users: seq<User>): Row -> Option<string> { (r: Row) => TeamOf(users, r.author) }

  function TeamNames(users: seq<User>, all: seq<User>): seq<string> {
    if users == [] then []
    else
      var front := TeamNames(users[..|users| - 1], all);
      var team := TeamOf(all, users[|users| - 1].id);
      if team.Some? && team.value !in front then front + [team.value] else front
  }

  function Itself(name: string): string { name }

  function Teams(users: seq<User>): seq<string> { Sorted(TeamNames(users, users), Itself) }

  function Members(users: seq<User>, team: string): seq<User> {
    if users == [] then []
    else (if users[0].team == Some(team) then [users[0]] else []) + Members(users[1..], team)
  }

  function NameOf(u: User): string { u.name }

  function Ids(users: seq<User>): (ids: seq<nat>)
    ensures |ids| == |users| && forall i | 0 <= i < |ids| :: ids[i] == users[i].id
  {
    if users == [] then [] else [users[0].id] + Ids(users[1..])
  }

  function MemberKey(ids: seq<nat>): Row -> Option<nat> {
    (r: Row) => if r.author in ids then Some(r.author) else None
  }

  // ----- the briefs ------------------------------------------------------------------------

  function ByTeam(users: seq<User>, rows: seq<Row>): string -> seq<Row> {
    (t: string) => Group(rows, AuthorTeam(users), t)
  }

  function OrgBrief(users: seq<User>, rows: seq<Row>, c: Config): Brief
    requires c.bands != []
  {
    var everything := InGroups(rows, AuthorTeam(users));
    Brief([LineFor("All teams", everything, c)] + LinesBy(Teams(users), Itself, ByTeam(users, everything), c),
          |rows| - |everything|)
  }

  function TeamRows(users: seq<User>, team: string, rows: seq<Row>): seq<Row> {
    InGroups(rows, MemberKey(Ids(Members(users, team))))
  }

  function ByAuthor(rows: seq<Row>): User -> seq<Row> {
    (u: User) => Filter(rows, (r: Row) => r.author == u.id)
  }

  function TeamBrief(subject: User, users: seq<User>, rows: seq<Row>, c: Config): Brief
    requires c.bands != []
  {
    if subject.team.None? then Brief([], 0)
    else
      var members := Members(users, subject.team.value);
      var teamRows := TeamRows(users, subject.team.value, rows);
      Brief([LineFor("Team " + subject.team.value, teamRows, c)]
            + LinesBy(Sorted(members, NameOf), NameOf, ByAuthor(teamRows), c), 0)
  }

  predicate AnyFigure(lines: seq<Line>) { exists i | 0 <= i < |lines| :: lines[i].HasAFigure() }

  /** What is sent, if anything is: a brief without a figure is not. */
  function BuildBrief(role: Role, subject: User, users: seq<User>, rows: seq<Row>, c: Config): Option<Brief>
    requires c.bands != []
  {
    var brief := match role
      case Rep => Brief([LineFor(subject.name, rows, c)], 0)
      case TeamLeader => TeamBrief(subject, users, rows, c)
      case HeadOfSales => OrgBrief(users, rows, c);
    if AnyFigure(brief.lines) then Some(brief) else None
  }

  // ----- order -----------------------------------------------------------------------------

  lemma {:induction false} BeforeIsAWeakOrder(a: string, b: string, c: string)
    requires Before(a, c)
    ensures Before(a, b) || Before(b, c)
  {
    if a != "" && b != "" && c != "" && a[0] == b[0] == c[0] { BeforeIsAWeakOrder(a[1..], b[1..], c[1..]); }
  }

  lemma {:induction false} BeforeIsOneWay(a: string, b: string)
    requires Before(a, b)
    ensures !Before(b, a)
  {
    if a != "" && a[0] == b[0] { BeforeIsOneWay(a[1..], b[1..]); }
  }

  lemma {:induction false} InsertAdds<T>(x: T, sorted: seq<T>, name: T -> string)
    ensures multiset(Insert(x, sorted, name)) == multiset{x} + multiset(sorted)
  {
    if sorted != [] && Before(name(sorted[0]), name(x)) {
      InsertAdds(x, sorted[1..], name);
      assert sorted == [sorted[0]] + sorted[1..];
    }
  }

  ghost predicate NoneBefore<T>(xs: seq<T>, x: T, name: T -> string) {
    forall j | 0 <= j < |xs| :: !Before(name(xs[j]), name(x))
  }

  lemma {:induction false} InOrderOfOneMore<T>(x: T, xs: seq<T>, name: T -> string)
    ensures InOrder([x] + xs, name) <==> NoneBefore(xs, x, name) && InOrder(xs, name)
  {
    var all := [x] + xs;
    assert forall i | 0 <= i < |xs| :: all[i + 1] == xs[i];
    assert all[0] == x;
    if InOrder(all, name) {
      forall i, j | 0 <= i < j < |xs|
        ensures !Before(name(xs[j]), name(xs[i]))
      {
        assert all[i + 1] == xs[i] && all[j + 1] == xs[j];
      }
    }
  }

  lemma {:induction false} InsertAfter<T>(x: T, sorted: seq<T>, y: T, name: T -> string)
    requires NoneBefore(sorted, y, name) && !Before(name(x), name(y))
    ensures NoneBefore(Insert(x, sorted, name), y, name)
  {
    var out := Insert(x, sorted, name);
    InsertAdds(x, sorted, name);
    forall j | 0 <= j < |out|
      ensures !Before(name(out[j]), name(y))
    {
      assert out[j] in multiset(out);
      assert out[j] == x || out[j] in sorted;
    }
  }

  lemma {:induction false} InsertKeepsOrder<T>(x: T, sorted: seq<T>, name: T -> string)
    requires InOrder(sorted, name)
    ensures InOrder(Insert(x, sorted, name), name)
  {
    if sorted == [] {
    } else if Before(name(sorted[0]), name(x)) {
      assert sorted == [sorted[0]] + sorted[1..];
      InOrderOfOneMore(sorted[0], sorted[1..], name);
      InsertKeepsOrder(x, sorted[1..], name);
      BeforeIsOneWay(name(sorted[0]), name(x));
      InsertAfter(x, sorted[1..], sorted[0], name);
      InOrderOfOneMore(sorted[0], Insert(x, sorted[1..], name), name);
    } else {
      forall j | 0 <= j < |sorted|
        ensures !Before(name(sorted[j]), name(x))
      {
        if Before(name(sorted[j]), name(x)) {
          BeforeIsAWeakOrder(name(sorted[j]), name(sorted[0]), name(x));
        }
      }
      InOrderOfOneMore(x, sorted, name);
    }
  }

  /** The listed names are the same ones, in order. */
  lemma {:induction false} SortedKeeps<T>(xs: seq<T>, name: T -> string)
    ensures multiset(Sorted(xs, name)) == multiset(xs)
    ensures InOrder(Sorted(xs, name), name)
  {
    if xs != [] {
      SortedKeeps(xs[1..], name);
      InsertAdds(xs[0], Sorted(xs[1..], name), name);
      InsertKeepsOrder(xs[0], Sorted(xs[1..], name), name);
      assert xs == [xs[0]] + xs[1..];
    }
  }

  lemma {:induction false} DistinctByCounting<T>(xs: seq<T>)
    ensures Distinct(xs) <==> forall x | x in xs :: multiset(xs)[x] == 1
  {
    if xs != [] {
      var front, last := xs[..|xs| - 1], xs[|xs| - 1];
      assert xs == front + [last];
      DistinctByCounting(front);
      if Distinct(xs) {
        assert last !in multiset(front);
        assert forall x | x in xs :: x == last || x in front;
      }
      if forall x | x in xs :: multiset(xs)[x] == 1 {
        assert last in xs && last !in multiset(front);
        forall x | x in front
          ensures multiset(front)[x] == 1
        {
          assert x in xs && x in multiset(front) && x != last;
        }
        assert Distinct(front);
      }
    }
  }
}
