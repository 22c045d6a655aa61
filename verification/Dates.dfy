/** Which dates and times the scan keeps, read off their digits. */
module Dates {
  import opened Options
  import opened Redaction

  const WESTERN := "0123456789"
  const ARABIC := "\U{0660}\U{0661}\U{0662}\U{0663}\U{0664}\U{0665}\U{0666}\U{0667}\U{0668}\U{0669}"
  const EXTENDED := "\U{06F0}\U{06F1}\U{06F2}\U{06F3}\U{06F4}\U{06F5}\U{06F6}\U{06F7}\U{06F8}\U{06F9}"

  /** `c` is the digit `v` of one of the three blocks. */
  predicate Is(c: char, v: nat) {
    v < 10 && (c == WESTERN[v] || c == ARABIC[v] || c == EXTENDED[v])
  }

  /** One or two digits that are read as `v`. */
  predicate Reads(g: string, v: nat) {
    || (|g| == 1 && Is(g[0], v))
    || (|g| == 2 && Is(g[0], v / 10) && Is(g[1], v % 10))
  }

  predicate AllDigits(g: string) { forall i | 0 <= i < |g| :: IsDigit(g[i]) }

  /** Three groups of digits with something between them, and what follows. */
  function Joined(a: string, p: char, b: string, q: char, c: string, rest: string): string {
    a + [p] + b + [q] + c + rest
  }

  /** The groups are digits, separated as a date's are, and no further digit follows. */
  predicate DateGroups(a: string, p: char, b: string, q: char, c: string, rest: string) {
    && AllDigits(a) && AllDigits(b) && AllDigits(c)
    && p in "-/." && q in "-/." && !At(rest, 0, Digit)
  }

  lemma {:induction false} DigitIs(c: char, v: nat)
    requires Is(c, v)
    ensures IsDigit(c) && DigitValue(c) == v
  {}

  lemma {:induction false} ReadsNumber(g: string, v: nat)
    requires Reads(g, v)
    ensures AllDigits(g) && 1 <= |g| <= 2 && Number(g) == v
  {
    if |g| == 1 {
      DigitIs(g[0], v);
      assert g[..0] == "";
    } else {
      DigitIs(g[0], v / 10);
      DigitIs(g[1], v % 10);
      assert g[..1][..0] == "";
      assert Number(g[..1]) == v / 10;
    }
  }

  // ----- groups at the front of a text ----------------------------------------------------

  lemma {:induction false} SpanOfGroup(g: string, rest: string)
    requires AllDigits(g) && !At(rest, 0, Digit)
    ensures Span(g + rest, Digit) == |g|
  {
    if g == "" {
      assert g + rest == rest;
    } else {
      SpanOfGroup(g[1..], rest);
      assert (g + rest)[1..] == g[1..] + rest;
    }
  }

  lemma {:induction false} CountOfGroup(g: string, rest: string)
    requires AllDigits(g)
    ensures DigitCount(g + rest) == |g| + DigitCount(rest)
  {
    if g == "" {
      assert g + rest == rest;
    } else {
      CountOfGroup(g[1..], rest);
      assert (g + rest)[1..] == g[1..] + rest;
    }
  }

  lemma {:induction false} GroupsBegin(g: string, rest: string)
    requires g != "" && AllDigits(g) && !At(rest, 0, Digit)
    ensures Groups(g + rest) == [g] + Groups(rest)
  {
    SpanOfGroup(g, rest);
    assert (g + rest)[..|g|] == g && (g + rest)[|g|..] == rest;
  }

  lemma {:induction false} PassedOver(p: char, rest: string)
    requires !IsDigit(p)
    ensures Groups([p] + rest) == Groups(rest)
    ensures DigitCount([p] + rest) == DigitCount(rest)
    ensures !At([p] + rest, 0, Digit)
  {
    assert ([p] + rest)[1..] == rest;
  }

  /** The groups and the digits of two or three groups cut out of their text. */
  lemma {:induction false} PairIsRead(a: string, p: char, b: string)
    requires a != "" && b != "" && AllDigits(a) && AllDigits(b) && !IsDigit(p)
    ensures Groups(a + [p] + b) == [a, b]
    ensures DigitCount(a + [p] + b) == |a| + |b|
  {
    assert a + [p] + b == a + ([p] + (b + ""));
    PassedOver(p, b + "");
    GroupsBegin(a, [p] + (b + ""));
    GroupsBegin(b, "");
    CountOfGroup(a, [p] + (b + ""));
    CountOfGroup(b, "");
  }

  lemma {:induction false} TripleIsRead(a: string, p: char, b: string, q: char, c: string)
    requires a != "" && b != "" && c != "" && AllDigits(a) && AllDigits(b) && AllDigits(c)
    requires !IsDigit(p) && !IsDigit(q)
    ensures Groups(a + [p] + b + [q] + c) == [a, b, c]
    ensures DigitCount(a + [p] + b + [q] + c) == |a| + |b| + |c|
  {
    hide Groups, DigitCount, IsDigit;
    var tail := b + [q] + c;
    assert a + [p] + b + [q] + c == a + ([p] + tail);
    PairIsRead(b, q, c);
    PassedOver(p, tail);
    GroupsBegin(a, [p] + tail);
    CountOfGroup(a, [p] + tail);
  }

  // ----- what the shapes take -------------------------------------------------------------

  function OneMore(n: nat, r: Option<nat>): Option<nat> {
    if r.None? then None else Some(n + r.value)
  }

  lemma {:induction false} GroupTaken(least: nat, most: nat, atoms: seq<Atom>, g: string, rest: string)
    requires AllDigits(g) && !At(rest, 0, Digit)
    ensures Shape([Digits(least, most)] + atoms, g + rest)
         == if least <= |g| <= most then OneMore(|g|, Shape(atoms, rest)) else None
  {
    SpanOfGroup(g, rest);
    assert ([Digits(least, most)] + atoms)[1..] == atoms;
    assert (g + rest)[|g|..] == rest;
  }

  lemma {:induction false} OneTaken(k: Class, atoms: seq<Atom>, p: char, rest: string)
    ensures Shape([One(k)] + atoms, [p] + rest) == if In(p, k) then OneMore(1, Shape(atoms, rest)) else None
  {
    assert ([One(k)] + atoms)[1..] == atoms;
    assert ([p] + rest)[1..] == rest;
  }

  /** A group alone, and a group after one character and whatever stands before. */
  lemma {:induction false} LastTaken(x: Atom, g: string, rest: string)
    requires x.Digits? && AllDigits(g) && !At(rest, 0, Digit)
    ensures Shape([x], g + rest) == if x.least <= |g| <= x.most then Some(|g|) else None
  {
    GroupTaken(x.least, x.most, [], g, rest);
    assert [x] + [] == [x];
  }

  lemma {:induction false} GroupAndOneTaken(x: Atom, k: Class, atoms: seq<Atom>, g: string, p: char, rest: string)
    requires x.Digits? && AllDigits(g) && !IsDigit(p) && In(p, k)
    ensures Shape([x, One(k)] + atoms, g + ([p] + rest))
         == if x.least <= |g| <= x.most then OneMore(|g| + 1, Shape(atoms, rest)) else None
  {
    hide Shape;
    GroupTaken(x.least, x.most, [One(k)] + atoms, g, [p] + rest);
    OneTaken(k, atoms, p, rest);
    assert [x, One(k)] + atoms == [x] + ([One(k)] + atoms);
  }

  lemma {:induction false} PairTaken(x: Atom, k: Class, y: Atom, a: string, p: char, b: string, rest: string)
    requires x.Digits? && y.Digits? && AllDigits(a) && AllDigits(b)
    requires !IsDigit(p) && In(p, k) && !At(rest, 0, Digit)
    ensures Shape([x, One(k), y], a + ([p] + (b + rest)))
         == if x.least <= |a| <= x.most && y.least <= |b| <= y.most then Some(|a| + |b| + 1) else None
  {
    hide Shape;
    GroupAndOneTaken(x, k, [y], a, p, b + rest);
    LastTaken(y, b, rest);
    assert [x, One(k), y] == [x, One(k)] + [y];
  }

  lemma {:induction false} ThreeTaken(x: Atom, y: Atom, z: Atom, a: string, p: char, b: string, q: char, c: string,
                                        rest: string)
    requires x.Digits? && y.Digits? && z.Digits? && DateGroups(a, p, b, q, c, rest)
    ensures Shape([x, One(DateSep), y, One(DateSep), z], Joined(a, p, b, q, c, rest))
         == if x.least <= |a| <= x.most && y.least <= |b| <= y.most && z.least <= |c| <= z.most
            then Some(|a| + |b| + |c| + 2) else None
  {
    hide Shape;
    var tail := b + ([q] + (c + rest));
    assert Joined(a, p, b, q, c, rest) == a + ([p] + tail);
    GroupAndOneTaken(x, DateSep, [y, One(DateSep), z], a, p, tail);
    PairTaken(y, DateSep, z, b, q, c, rest);
    assert [x, One(DateSep), y, One(DateSep), z] == [x, One(DateSep)] + [y, One(DateSep), z];
  }

  // ----- dates ----------------------------------------------------------------------------

  /** A year of four digits first: the date is kept if and only if the second number is a month
      and the third a day, or there are too few digits for a telephone number. */
  lemma {:induction false} YearFirstIsKeptExactlyWhen(year: string, p: char, month: string, q: char, day: string,
                                                      rest: string, m: nat, d: nat)
    requires DateGroups(year, p, month, q, day, rest)
    requires |year| == 4 && Reads(month, m) && Reads(day, d)
    ensures var n := 6 + |month| + |day|;
      Next(Joined(year, p, month, q, day, rest))
      == if (1 <= m <= 12 && 1 <= d <= 31) || |month| + |day| == 2 then Keep(n) else Swap(n, Phone)
  {
    var s := Joined(year, p, month, q, day, rest);
    ReadsNumber(month, m);
    ReadsNumber(day, d);
    ThreeTaken(Digits(4, 4), Digits(1, 2), Digits(1, 2), year, p, month, q, day, rest);
    assert s[..6 + |month| + |day|] == year + [p] + month + [q] + day;
    TripleIsRead(year, p, month, q, day);
  }

  /** A year of two to four digits last: the other two may be a day and a month in either order. */
  lemma {:induction false} YearLastIsKeptExactlyWhen(first: string, p: char, second: string, q: char, year: string,
                                                     rest: string, a: nat, b: nat)
    requires DateGroups(first, p, second, q, year, rest)
    requires 2 <= |year| <= 4 && Reads(first, a) && Reads(second, b)
    ensures var n := 2 + |first| + |second| + |year|;
      Next(Joined(first, p, second, q, year, rest))
      == if (1 <= a <= 12 && 1 <= b <= 31) || (1 <= b <= 12 && 1 <= a <= 31) || |first| + |second| + |year| < 7
         then Keep(n) else Swap(n, Phone)
  {
    var s := Joined(first, p, second, q, year, rest);
    ReadsNumber(first, a);
    ReadsNumber(second, b);
    ThreeTaken(Digits(4, 4), Digits(1, 2), Digits(1, 2), first, p, second, q, year, rest);
    ThreeTaken(Digits(1, 2), Digits(1, 2), Digits(2, 4), first, p, second, q, year, rest);
    assert s[..2 + |first| + |second| + |year|] == first + [p] + second + [q] + year;
    TripleIsRead(first, p, second, q, year);
  }

  // ----- times ----------------------------------------------------------------------------

  lemma {:induction false} NoDateHere(h: string, rest: string)
    requires AllDigits(h) && Has(rest, 0, ':')
    ensures Shape(YEAR_FIRST, h + rest) == None && Shape(YEAR_LAST, h + rest) == None
  {
    var colon := [':'] + rest[1..];
    assert rest == colon;
    var first, last := [Digits(1, 2), One(DateSep), Digits(1, 2)], [Digits(1, 2), One(DateSep), Digits(2, 4)];
    GroupTaken(4, 4, [One(DateSep)] + first, h, rest);
    GroupTaken(1, 2, [One(DateSep)] + last, h, rest);
    OneTaken(DateSep, first, ':', rest[1..]);
    OneTaken(DateSep, last, ':', rest[1..]);
    assert YEAR_FIRST == [Digits(4, 4)] + ([One(DateSep)] + first);
    assert YEAR_LAST == [Digits(1, 2)] + ([One(DateSep)] + last);
  }

  lemma {:induction false} ClockAloneTaken(hours: string, minutes: string, rest: string)
    requires 1 <= |hours| <= 2 && |minutes| == 2 && AllDigits(hours) && AllDigits(minutes)
    requires !At(rest, 0, Digit) && Shape(SECONDS, rest).None?
    ensures var s := hours + ([':'] + (minutes + rest)); Date(s) == 0 && Time(s) == |hours| + 3
  {
    hide Shape;
    var s := hours + ([':'] + (minutes + rest));
    NoDateHere(hours, [':'] + (minutes + rest));
    PairTaken(Digits(1, 2), Colon, Digits(2, 2), hours, ':', minutes, rest);
    assert s[|hours| + 3..] == rest;
  }

  /** Hours and minutes, with no seconds behind them. */
  lemma {:induction false} ClockIsKept(hours: string, minutes: string, rest: string, h: nat, m: nat)
    requires Reads(hours, h) && |minutes| == 2 && Reads(minutes, m)
    requires !At(rest, 0, Digit) && Shape(SECONDS, rest).None?
    ensures Next(hours + ([':'] + (minutes + rest))) == Keep(|hours| + 3)
    ensures PlausibleTime(hours + [':'] + minutes) <==> h <= 23 && m <= 59
  {
    hide Date, Time, Groups, DigitCount, Number, Shape;
    var s := hours + ([':'] + (minutes + rest));
    ReadsNumber(hours, h);
    ReadsNumber(minutes, m);
    ClockAloneTaken(hours, minutes, rest);
    assert s[..|hours| + 3] == hours + [':'] + minutes;
    PairIsRead(hours, ':', minutes);
  }

  lemma {:induction false} ClockTaken(hours: string, minutes: string, seconds: string, rest: string)
    requires 1 <= |hours| <= 2 && |minutes| == 2 && |seconds| == 2
    requires AllDigits(hours) && AllDigits(minutes) && AllDigits(seconds) && !At(rest, 0, Digit)
    ensures var s := hours + ([':'] + (minutes + ([':'] + (seconds + rest))));
      Date(s) == 0 && Time(s) == |hours| + 6
  {
    hide Shape;
    var tail := [':'] + (seconds + rest);
    var s := hours + ([':'] + (minutes + tail));
    NoDateHere(hours, [':'] + (minutes + tail));
    PairTaken(Digits(1, 2), Colon, Digits(2, 2), hours, ':', minutes, tail);
    OneTaken(Colon, [Digits(2, 2)], ':', seconds + rest);
    LastTaken(Digits(2, 2), seconds, rest);
    assert SECONDS == [One(Colon)] + [Digits(2, 2)];
    assert s[|hours| + 3..] == tail;
  }

  /** Hours, minutes and seconds. */
  lemma {:induction false} ClockWithSecondsIsKept(hours: string, minutes: string, seconds: string, rest: string,
                                        h: nat, m: nat, sec: nat)
    requires Reads(hours, h) && |minutes| == 2 && Reads(minutes, m) && |seconds| == 2 && Reads(seconds, sec)
    requires !At(rest, 0, Digit)
    ensures Next(hours + ([':'] + (minutes + ([':'] + (seconds + rest))))) == Keep(|hours| + 6)
    ensures PlausibleTime(hours + [':'] + minutes + [':'] + seconds) <==> h <= 23 && m <= 59 && sec <= 59
  {
    hide Date, Time, Groups, DigitCount, Number;
    var s := hours + ([':'] + (minutes + ([':'] + (seconds + rest))));
    ReadsNumber(hours, h);
    ReadsNumber(minutes, m);
    ReadsNumber(seconds, sec);
    ClockTaken(hours, minutes, seconds, rest);
    assert s[..|hours| + 6] == hours + [':'] + minutes + [':'] + seconds;
    TripleIsRead(hours, ':', minutes, ':', seconds);
    assert Groups(hours + [':'] + minutes + [':'] + seconds)[2] == seconds;
  }

  // ----- every date and every time --------------------------------------------------------

  lemma {:induction false} SpanIsDigits(s: string)
    ensures AllDigits(s[..Span(s, Digit)]) && !At(s[Span(s, Digit)..], 0, Digit)
  {
    if At(s, 0, Digit) {
      SpanIsDigits(s[1..]);
      var n := Span(s[1..], Digit);
      assert s[1..][n..] == s[1 + n..];
      forall i | 0 <= i < 1 + n
        ensures IsDigit(s[i])
      {
        assert i > 0 ==> s[i] == s[1..][..n][i - 1];
      }
    }
  }

  lemma {:induction false} FrontTakenOff(x: Atom, k: Class, atoms: seq<Atom>, s: string)
    returns (g: string, p: char, rest: string)
    requires x.Digits? && Shape([x, One(k)] + atoms, s).Some?
    ensures s == g + ([p] + rest) && AllDigits(g) && x.least <= |g| <= x.most
    ensures In(p, k) && Shape(atoms, rest).Some?
  {
    var n := Span(s, Digit);
    SpanIsDigits(s);
    assert ([x, One(k)] + atoms)[1..] == [One(k)] + atoms;
    assert ([One(k)] + atoms)[1..] == atoms;
    assert s[n..][1..] == s[n + 1..];
    g, p, rest := s[..n], s[n], s[n + 1..];
  }

  lemma {:induction false} LastTakenOff(x: Atom, s: string) returns (g: string, rest: string)
    requires x.Digits? && Shape([x], s).Some?
    ensures s == g + rest && AllDigits(g) && x.least <= |g| <= x.most && !At(rest, 0, Digit)
  {
    var n := Span(s, Digit);
    SpanIsDigits(s);
    g, rest := s[..n], s[n..];
  }

  lemma {:induction false} JoinedFrom(a: string, p: char, b: string, q: char, c: string, rest: string)
    ensures Joined(a, p, b, q, c, rest) == a + ([p] + (b + ([q] + (c + rest))))
  {}

  lemma {:induction false} GroupsOfThree(x: Atom, y: Atom, z: Atom, s: string)
    returns (a: string, p: char, b: string, q: char, c: string, rest: string)
    requires x.Digits? && y.Digits? && z.Digits?
    requires Shape([x, One(DateSep), y, One(DateSep), z], s).Some?
    ensures s == Joined(a, p, b, q, c, rest) && DateGroups(a, p, b, q, c, rest)
    ensures x.least <= |a| <= x.most && y.least <= |b| <= y.most && z.least <= |c| <= z.most
  {
    hide Shape, Joined, AllDigits, At;
    var s', s'';
    assert [x, One(DateSep), y, One(DateSep), z] == [x, One(DateSep)] + [y, One(DateSep), z];
    a, p, s' := FrontTakenOff(x, DateSep, [y, One(DateSep), z], s);
    assert [y, One(DateSep), z] == [y, One(DateSep)] + [z];
    b, q, s'' := FrontTakenOff(y, DateSep, [z], s');
    c, rest := LastTakenOff(z, s'');
    JoinedFrom(a, p, b, q, c, rest);
  }

  /** The two lemmas about dates cover every date. */
  lemma {:induction false} EveryDateIsInGroups(s: string)
    returns (a: string, p: char, b: string, q: char, c: string, rest: string)
    requires Date(s) > 0
    ensures s == Joined(a, p, b, q, c, rest) && DateGroups(a, p, b, q, c, rest) && 1 <= |b| <= 2
    ensures (|a| == 4 && 1 <= |c| <= 2) || (1 <= |a| <= 2 && 2 <= |c| <= 4)
  {
    hide Shape;
    if Shape(YEAR_FIRST, s).Some? {
      a, p, b, q, c, rest := GroupsOfThree(Digits(4, 4), Digits(1, 2), Digits(1, 2), s);
    } else {
      a, p, b, q, c, rest := GroupsOfThree(Digits(1, 2), Digits(1, 2), Digits(2, 4), s);
    }
  }

  /** At most how many digits a list of atoms takes. */
  function MostDigits(atoms: seq<Atom>): nat {
    if atoms == [] then 0 else MostDigits(atoms[1..]) + if atoms[0].Digits? then atoms[0].most else 0
  }

  lemma {:induction false} CountJoins(a: string, b: string)
    ensures DigitCount(a + b) == DigitCount(a) + DigitCount(b)
  {
    if a == "" {
      assert a + b == b;
    } else {
      CountJoins(a[1..], b);
      assert (a + b)[1..] == a[1..] + b;
    }
  }

  lemma {:induction false} ShapeTakesAtMost(atoms: seq<Atom>, s: string)
    requires Shape(atoms, s).Some?
    requires forall i | 0 <= i < |atoms| && atoms[i].One? :: atoms[i].k == Colon
    ensures DigitCount(s[..Shape(atoms, s).value]) <= MostDigits(atoms)
  {
    if atoms != [] {
      var n, m := AtomLength(atoms[0], s).value, Shape(atoms, s).value;
      ShapeTakesAtMost(atoms[1..], s[n..]);
      assert s[..m] == s[..n] + s[n..][..m - n];
      CountJoins(s[..n], s[n..][..m - n]);
      if atoms[0].Digits? {
        SpanIsDigits(s);
        CountOfGroup(s[..n], "");
        assert s[..n] + "" == s[..n];
      }
    }
  }

  /** A time has at most six digits, so it is kept whatever hour it names: the test of its numbers
      never decides anything. */
  lemma {:induction false} TimesAreKept(s: string)
    requires Date(s) == 0 && Time(s) > 0
    ensures Next(s) == Keep(Time(s))
  {
    hide Shape, Groups;
    var clock := Shape(CLOCK, s).value;
    ShapeTakesAtMost(CLOCK, s);
    assert MostDigits(CLOCK) == 4 && MostDigits(SECONDS) == 2 by { ClockDigits(); }
    if Shape(SECONDS, s[clock..]).Some? {
      ShapeTakesAtMost(SECONDS, s[clock..]);
      assert s[..Time(s)] == s[..clock] + s[clock..][..Time(s) - clock];
      CountJoins(s[..clock], s[clock..][..Time(s) - clock]);
    }
  }

  lemma {:induction false} ClockDigits()
    ensures MostDigits(CLOCK) == 4 && MostDigits(SECONDS) == 2
  {
    assert CLOCK[1..] == [One(Colon), Digits(2, 2)] && CLOCK[1..][1..] == [Digits(2, 2)] && CLOCK[1..][1..][1..] == [];
    assert SECONDS[1..] == [Digits(2, 2)] && SECONDS[1..][1..] == [];
  }
}
