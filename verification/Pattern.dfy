/** The redaction pattern as it is written, under the usual backtracking semantics of regular
    expressions, and the proof that the hand-written matchers compute its first match.

    Repetition is bounded by the length of the text: every repeated group here takes at least
    one character, so the bound is never the reason a match ends. */
module Pattern {
  import opened Options
  import opened Redaction
  import RedactionLaws

  datatype Regex =
    | Cls(k: Class)
    | Lit(c: char)
    | Cat(a: Regex, b: Regex)
    | Alt(a: Regex, b: Regex)
    | Opt(r: Regex)
    | Rep(r: Regex, lo: nat, hi: nat)
    | NotAhead(k: Class)

  /** What is still to be matched. */
  datatype Rest = Done | Then(r: Regex, rest: Rest)

  function Size(r: Regex): nat {
    match r
    case Cls(_) => 1
    case Lit(_) => 1
    case Cat(a, b) => 1 + Size(a) + Size(b)
    case Alt(a, b) => 1 + Size(a) + Size(b)
    case Opt(r) => 1 + Size(r)
    case Rep(r, _, hi) => RepSize(Size(r), hi)
    case NotAhead(_) => 1
  }

  function RepSize(size: nat, hi: nat): nat {
    if hi == 0 then 1 else 1 + size + RepSize(size, hi - 1)
  }

  function Weight(k: Rest): nat {
    match k
    case Done => 0
    case Then(r, rest) => Size(r) + Weight(rest)
  }

  function Plus(n: nat, r: Option<nat>): Option<nat> {
    match r
    case None => None
    case Some(m) => Some(n + m)
  }

  function OrElse(a: Option<nat>, b: Option<nat>): Option<nat> {
    if a.Some? then a else b
  }

  /** The length of the first match of `k` at the start of `s`: alternatives from the left,
      options and repetitions greedily, each choice undone when what follows fails. */
  function Try(k: Rest, s: string): (r: Option<nat>)
    ensures r.Some? ==> r.value <= |s|
    decreases Weight(k)
  {
    match k
    case Done => Some(0)
    case Then(Cls(c), rest) => if At(s, 0, c) then Plus(1, Try(rest, s[1..])) else None
    case Then(Lit(c), rest) => if Has(s, 0, c) then Plus(1, Try(rest, s[1..])) else None
    case Then(Cat(a, b), rest) =>
      assert Weight(Then(b, rest)) == Size(b) + Weight(rest);
      Try(Then(a, Then(b, rest)), s)
    case Then(Alt(a, b), rest) => OrElse(Try(Then(a, rest), s), Try(Then(b, rest), s))
    case Then(Opt(r), rest) => OrElse(Try(Then(r, rest), s), Try(rest, s))
    case Then(Rep(r, lo, hi), rest) =>
      if hi == 0 then (if lo == 0 then Try(rest, s) else None)
      else
        var again := Rep(r, if lo > 0 then lo - 1 else 0, hi - 1);
        assert Weight(Then(again, rest)) == Size(again) + Weight(rest);
        var more := Try(Then(r, Then(again, rest)), s);
        if lo > 0 then more else OrElse(more, Try(rest, s))
    case Then(NotAhead(c), rest) => if At(s, 0, c) then None else Try(rest, s)
  }

  // ----- the pattern, as written ----------------------------------------------------------

  /** One regular expression after another. */
  function All(rs: seq<Regex>): Regex
    requires rs != []
  {
    if |rs| == 1 then rs[0] else Cat(All(rs[..|rs| - 1]), rs[|rs| - 1])
  }

  function D(lo: nat, hi: nat): Regex { Rep(Cls(Digit), lo, hi) }

  const FIRST_DATE_REGEX: seq<Regex> := [D(4, 4), Cls(DateSep), D(1, 2), Cls(DateSep), D(1, 2), NotAhead(Digit)]
  const LAST_DATE_REGEX: seq<Regex> := [D(1, 2), Cls(DateSep), D(1, 2), Cls(DateSep), D(2, 4), NotAhead(Digit)]
  const SECONDS_REGEX: seq<Regex> := [Cls(Colon), D(2, 2)]
  const TIME_REGEX: seq<Regex> := [D(1, 2), Cls(Colon), D(2, 2), Opt(All(SECONDS_REGEX)), NotAhead(Digit)]

  function Labels(n: nat): Regex { All([Lit('.'), Rep(Cls(Label), 1, n)]) }

  function EmailRegex(n: nat): seq<Regex> {
    [Rep(Cls(Local), 1, n), Lit('@'), Rep(Cls(Label), 1, n),
     Rep(Labels(n), 0, n), Lit('.'), Rep(Cls(Letter), 2, n)]
  }

  const JOINED_REGEX := Alt(All([Rep(Cls(RunSep), 1, 2), Cls(Digit)]), Cls(Digit))

  function RunRegex(n: nat): seq<Regex> {
    [Opt(Lit('+')), Opt(Lit('(')), Cls(Digit), Rep(JOINED_REGEX, 0, n)]
  }

  /** The whole pattern, for texts of at most `n` characters. */
  function WholePattern(n: nat): Regex {
    Alt(Alt(All(FIRST_DATE_REGEX), All(LAST_DATE_REGEX)), Alt(All(TIME_REGEX), Alt(All(EmailRegex(n)), All(RunRegex(n)))))
  }

  function Chain(rs: seq<Regex>, k: Rest): Rest {
    if rs == [] then k else Then(rs[0], Chain(rs[1..], k))
  }

  lemma {:induction false} ChainAppends(rs: seq<Regex>, r: Regex, k: Rest)
    ensures Chain(rs + [r], k) == Chain(rs, Then(r, k))
  {
    if rs == [] {
      assert [r][1..] == [];
    } else {
      ChainAppends(rs[1..], r, k);
      assert (rs + [r])[1..] == rs[1..] + [r];
    }
  }

  lemma {:induction false} AllIsChain(rs: seq<Regex>, k: Rest, s: string)
    requires rs != []
    ensures Try(Then(All(rs), k), s) == Try(Chain(rs, k), s)
  {
    if |rs| == 1 {
      assert rs[1..] == [];
    } else {
      var front, last := rs[..|rs| - 1], rs[|rs| - 1];
      CatSplits(All(front), last, k, s);
      AllIsChain(front, Then(last, k), s);
      ChainAppends(front, last, k);
      assert rs == front + [last];
    }
  }

  lemma {:induction false} CatSplits(a: Regex, b: Regex, k: Rest, s: string)
    ensures Try(Then(Cat(a, b), k), s) == Try(Then(a, Then(b, k)), s)
  {}

  // ----- groups that end where their class ends -------------------------------------------

  /** What follows cannot begin with a character of the class. */
  ghost predicate Blocks(k: Rest, c: Class) {
    forall u: string :: At(u, 0, c) ==> Try(k, u).None?
  }

  function OneLess(n: nat): nat { if n > 0 then n - 1 else 0 }

  lemma {:induction false} RepeatsClass(c: Class, lo: nat, hi: nat, k: Rest, s: string)
    requires hi > 0
    ensures var more := if At(s, 0, c) then Plus(1, Try(Then(Rep(Cls(c), OneLess(lo), hi - 1), k), s[1..])) else None;
      Try(Then(Rep(Cls(c), lo, hi), k), s) == if lo > 0 then more else OrElse(more, Try(k, s))
  {}

  /** A repeated class before such a rest takes the whole span or fails. */
  lemma {:induction false} ExactGroup(c: Class, lo: nat, hi: nat, k: Rest, s: string)
    requires Blocks(k, c) && lo <= hi
    ensures Try(Then(Rep(Cls(c), lo, hi), k), s)
         == if lo <= Span(s, c) <= hi then Plus(Span(s, c), Try(k, s[Span(s, c)..])) else None
    decreases hi
  {
    hide Try;
    if hi > 0 {
      RepeatsClass(c, lo, hi, k, s);
      if At(s, 0, c) {
        ExactGroup(c, OneLess(lo), hi - 1, k, s[1..]);
        assert s[1..][Span(s[1..], c)..] == s[1 + Span(s[1..], c)..];
      }
    } else {
      RepeatsNothing(Cls(c), k, s);
    }
  }

  lemma {:induction false} RepeatsNothing(r: Regex, k: Rest, s: string)
    ensures Try(Then(Rep(r, 0, 0), k), s) == Try(k, s)
  {}

  /** At the very end of a pattern it takes as much as it can. */
  lemma {:induction false} LastGroup(c: Class, lo: nat, hi: nat, s: string)
    requires lo <= hi && |s| <= hi
    ensures Try(Then(Rep(Cls(c), lo, hi), Done), s) == if lo <= Span(s, c) then Some(Span(s, c)) else None
    decreases hi
  {
    hide Try;
    assert Try(Done, s) == Some(0) by { NothingLeft(s); }
    if hi > 0 {
      RepeatsClass(c, lo, hi, Done, s);
      if At(s, 0, c) {
        LastGroup(c, OneLess(lo), hi - 1, s[1..]);
      }
    } else {
      RepeatsNothing(Cls(c), Done, s);
    }
  }

  lemma {:induction false} NothingLeft(s: string)
    ensures Try(Done, s) == Some(0)
  {}

  // ----- dates and times ------------------------------------------------------------------

  function Part(a: Atom): Regex {
    match a
    case Digits(least, most) => D(least, most)
    case One(k) => Cls(k)
  }

  function Parts(atoms: seq<Atom>): seq<Regex> {
    if atoms == [] then [] else [Part(atoms[0])] + Parts(atoms[1..])
  }

  /** Digit groups and separators alternate, and a digit group is last. */
  ghost predicate Alternates(atoms: seq<Atom>) {
    && (forall i :: 0 <= i < |atoms| ==> atoms[i].Digits? ==> 1 <= atoms[i].least <= atoms[i].most)
    && (forall i :: 0 <= i < |atoms| ==> atoms[i].One? ==> atoms[i].k in {DateSep, Colon})
    && (forall i :: 0 <= i < |atoms| - 1 ==> atoms[i].Digits? == atoms[i + 1].One?)
    && (atoms != [] ==> atoms[|atoms| - 1].Digits?)
  }

  lemma {:induction false} MatchesClass(c: Class, k: Rest, s: string)
    ensures Try(Then(Cls(c), k), s) == if At(s, 0, c) then Plus(1, Try(k, s[1..])) else None
  {}

  lemma {:induction false} EndsBeforeClass(c: Class, s: string)
    ensures Try(Then(NotAhead(c), Done), s) == if At(s, 0, c) then None else Some(0)
  {}

  lemma {:induction false} SeparatorBlocksDigits(c: Class, k: Rest)
    requires c in {DateSep, Colon}
    ensures Blocks(Then(Cls(c), k), Digit)
  {}

  lemma {:induction false} ChainStep(rs: seq<Regex>, k: Rest)
    requires rs != []
    ensures Chain(rs, k) == Then(rs[0], Chain(rs[1..], k))
  {}

  lemma {:induction false} AtomIsPart(a: Atom, rest: Rest, s: string)
    requires a.Digits? ==> 1 <= a.least <= a.most && Blocks(rest, Digit)
    ensures Try(Then(Part(a), rest), s)
         == if AtomLength(a, s).None? then None
            else Plus(AtomLength(a, s).value, Try(rest, s[AtomLength(a, s).value..]))
  {
    hide Try, Blocks;
    match a
    case Digits(least, most) => ExactGroup(Digit, least, most, rest, s);
    case One(k) => MatchesClass(k, rest, s);
  }

  lemma {:induction false} AlternatesOn(atoms: seq<Atom>)
    requires Alternates(atoms) && atoms != []
    ensures Alternates(atoms[1..])
    ensures atoms[0].Digits? ==> 1 <= atoms[0].least <= atoms[0].most
    ensures atoms[0].Digits? && |atoms| > 1 ==> atoms[1].One? && atoms[1].k in {DateSep, Colon}
  {}

  lemma {:induction false} RestBlocksDigits(atoms: seq<Atom>, k: Rest)
    requires atoms == [] || (atoms[0].One? && atoms[0].k in {DateSep, Colon})
    requires Blocks(k, Digit)
    ensures Blocks(Chain(Parts(atoms), k), Digit)
  {
    if atoms != [] {
      ChainStep(Parts(atoms), k);
      SeparatorBlocksDigits(atoms[0].k, Chain(Parts(atoms)[1..], k));
    }
  }

  /** Alternating atoms, before a rest that no digit can begin, match as the pattern does. */
  lemma {:induction false} ShapeIsPattern(atoms: seq<Atom>, k: Rest, s: string)
    requires Alternates(atoms) && Blocks(k, Digit)
    ensures Try(Chain(Parts(atoms), k), s)
         == if Shape(atoms, s).None? then None
            else Plus(Shape(atoms, s).value, Try(k, s[Shape(atoms, s).value..]))
  {
    hide Try, Blocks, Alternates, AtomLength, Shape, Plus;
    ShapeUnfolds(atoms, s);
    if atoms != [] {
      var rest := Chain(Parts(atoms[1..]), k);
      assert Parts(atoms)[1..] == Parts(atoms[1..]);
      AlternatesOn(atoms);
      if atoms[0].Digits? {
        RestBlocksDigits(atoms[1..], k);
      }
      AtomIsPart(atoms[0], rest, s);
      var n := AtomLength(atoms[0], s);
      if n.Some? {
        ShapeIsPattern(atoms[1..], k, s[n.value..]);
        var m := Shape(atoms[1..], s[n.value..]);
        if m.Some? {
          assert s[n.value..][m.value..] == s[n.value + m.value..];
          PlusAdds(n.value, m.value, Try(k, s[n.value + m.value..]));
        } else {
          PlusAdds(n.value, 0, None);
        }
      }
    } else {
      assert s[0..] == s;
      PlusAdds(0, 0, Try(k, s));
    }
  }

  lemma {:induction false} ShapeUnfolds(atoms: seq<Atom>, s: string)
    ensures Shape(atoms, s) ==
      if atoms == [] then Some(0)
      else if AtomLength(atoms[0], s).None? then None
      else
        var n := AtomLength(atoms[0], s).value;
        if Shape(atoms[1..], s[n..]).None? then None else Some(n + Shape(atoms[1..], s[n..]).value)
  {}

  lemma {:induction false} PlusAdds(n: nat, m: nat, r: Option<nat>)
    ensures Plus(n, Plus(m, r)) == Plus(n + m, r)
    ensures Plus(n, None) == None && Plus(0, r) == r
  {}

  lemma {:induction false} AtomsEndClean(atoms: seq<Atom>, s: string)
    requires Alternates(atoms) && atoms != [] && Shape(atoms, s).Some?
    ensures !At(s[Shape(atoms, s).value..], 0, Digit)
  {
    RedactionLaws.ShapeEndsClean(atoms, s);
  }

  lemma {:induction false} DigitsBlockedAhead()
    ensures Blocks(Then(NotAhead(Digit), Done), Digit)
  {}

  /** Atoms, and then no digit ahead. */
  lemma {:induction false} ShapeIsWholePattern(atoms: seq<Atom>, rs: seq<Regex>, s: string)
    requires Alternates(atoms) && atoms != [] && rs == Parts(atoms) + [NotAhead(Digit)]
    ensures Try(Chain(rs, Done), s) == Shape(atoms, s)
  {
    hide Try, Blocks;
    DigitsBlockedAhead();
    ChainAppends(Parts(atoms), NotAhead(Digit), Done);
    ShapeIsPattern(atoms, Then(NotAhead(Digit), Done), s);
    if Shape(atoms, s).Some? {
      AtomsEndClean(atoms, s);
      EndsBeforeClass(Digit, s[Shape(atoms, s).value..]);
    }
  }

  lemma {:induction false} PartsOf(a: Atom, atoms: seq<Atom>)
    ensures Parts([a] + atoms) == [Part(a)] + Parts(atoms)
  {
    assert ([a] + atoms)[1..] == atoms;
  }

  lemma {:induction false} PartsOfFive(a: Atom, b: Atom, c: Atom, d: Atom, e: Atom)
    ensures Parts([a, b, c, d, e]) == [Part(a), Part(b), Part(c), Part(d), Part(e)]
  {
    assert [a, b, c, d, e] == [a] + ([b] + ([c] + ([d] + ([e] + []))));
    PartsOf(e, []);
    PartsOf(d, [e] + []);
    PartsOf(c, [d] + ([e] + []));
    PartsOf(b, [c] + ([d] + ([e] + [])));
    PartsOf(a, [b] + ([c] + ([d] + ([e] + []))));
  }

  lemma {:induction false} DateIsPattern(s: string)
    ensures Try(Then(Alt(All(FIRST_DATE_REGEX), All(LAST_DATE_REGEX)), Done), s) == Found(Date(s))
  {
    hide Shape, Alternates;
    AllIsChain(FIRST_DATE_REGEX, Done, s);
    AllIsChain(LAST_DATE_REGEX, Done, s);
    PartsOfFive(Digits(4, 4), One(DateSep), Digits(1, 2), One(DateSep), Digits(1, 2));
    PartsOfFive(Digits(1, 2), One(DateSep), Digits(1, 2), One(DateSep), Digits(2, 4));
    DatesAlternate();
    ShapeIsWholePattern(YEAR_FIRST, FIRST_DATE_REGEX, s);
    ShapeIsWholePattern(YEAR_LAST, LAST_DATE_REGEX, s);
  }

  lemma {:induction false} DatesAlternate()
    ensures Alternates(YEAR_FIRST) && Alternates(YEAR_LAST)
  {}

  /** The matchers answer 0 for no match. */
  function Found(n: nat): Option<nat> { if n == 0 then None else Some(n) }

  lemma {:induction false} MatchesLit(c: char, k: Rest, s: string)
    ensures Try(Then(Lit(c), k), s) == if Has(s, 0, c) then Plus(1, Try(k, s[1..])) else None
  {}

  lemma {:induction false} MatchesOpt(r: Regex, k: Rest, s: string)
    ensures Try(Then(Opt(r), k), s) == OrElse(Try(Then(r, k), s), Try(k, s))
  {}

  /** What follows hours and minutes: whole seconds, or nothing. */
  lemma {:induction false} SecondsArePattern(s: string)
    ensures Try(Then(Opt(All(SECONDS_REGEX)), Then(NotAhead(Digit), Done)), s)
         == OrElse(Shape(SECONDS, s), if At(s, 0, Digit) then None else Some(0))
  {
    hide Try, Shape;
    var end := Then(NotAhead(Digit), Done);
    MatchesOpt(All(SECONDS_REGEX), end, s);
    EndsBeforeClass(Digit, s);
    AllIsChain(SECONDS_REGEX, end, s);
    ChainAppends(SECONDS_REGEX, NotAhead(Digit), Done);
    PartsOf(Digits(2, 2), []);
    PartsOf(One(Colon), [Digits(2, 2)] + []);
    assert SECONDS == [One(Colon)] + ([Digits(2, 2)] + []);
    ShapeIsWholePattern(SECONDS, SECONDS_REGEX + [NotAhead(Digit)], s);
  }

  lemma {:induction false} SecondsBlockDigits()
    ensures Blocks(Then(Opt(All(SECONDS_REGEX)), Then(NotAhead(Digit), Done)), Digit)
  {
    hide Try;
    forall u: string | At(u, 0, Digit)
      ensures Try(Then(Opt(All(SECONDS_REGEX)), Then(NotAhead(Digit), Done)), u).None?
    {
      SecondsArePattern(u);
    }
  }

  lemma {:induction false} TimeIsPattern(s: string)
    ensures Try(Then(All(TIME_REGEX), Done), s) == Found(Time(s))
  {
    hide Try, Shape, Blocks;
    var k := Then(Opt(All(SECONDS_REGEX)), Then(NotAhead(Digit), Done));
    AllIsChain(TIME_REGEX, Done, s);
    assert CLOCK == [Digits(1, 2)] + ([One(Colon)] + ([Digits(2, 2)] + []));
    PartsOf(Digits(2, 2), []);
    PartsOf(One(Colon), [Digits(2, 2)] + []);
    PartsOf(Digits(1, 2), [One(Colon)] + ([Digits(2, 2)] + []));
    assert TIME_REGEX == (Parts(CLOCK) + [Opt(All(SECONDS_REGEX))]) + [NotAhead(Digit)];
    ChainAppends(Parts(CLOCK) + [Opt(All(SECONDS_REGEX))], NotAhead(Digit), Done);
    ChainAppends(Parts(CLOCK), Opt(All(SECONDS_REGEX)), Then(NotAhead(Digit), Done));
    SecondsBlockDigits();
    ShapeIsPattern(CLOCK, k, s);
    ClockTakesSome(s);
    if Shape(CLOCK, s).Some? {
      var rest := s[Shape(CLOCK, s).value..];
      SecondsArePattern(rest);
      AtomsEndClean(CLOCK, s);
    }
  }

  lemma {:induction false} ClockTakesSome(s: string)
    ensures Shape(CLOCK, s).Some? ==> Shape(CLOCK, s).value > 0
  {
    assert CLOCK[0] == Digits(1, 2);
  }

  // ----- emails ---------------------------------------------------------------------------

  /** The dot and the letters that end a domain. */
  function TopLevel(n: nat): Rest { Then(Lit('.'), Then(Rep(Cls(Letter), 2, n), Done)) }

  lemma {:induction false} RepeatsOrStops(r: Regex, hi: nat, k: Rest, s: string)
    requires hi > 0
    ensures Try(Then(Rep(r, 0, hi), k), s) == OrElse(Try(Then(r, Then(Rep(r, 0, hi - 1), k)), s), Try(k, s))
  {}

  lemma {:induction false} TopLevelIsLetters(n: nat, s: string)
    requires |s| <= n && 2 <= n
    ensures Try(TopLevel(n), s)
         == if Has(s, 0, '.') && Span(s[1..], Letter) >= 2 then Some(1 + Span(s[1..], Letter)) else None
  {
    hide Try;
    MatchesLit('.', Then(Rep(Cls(Letter), 2, n), Done), s);
    if Has(s, 0, '.') {
      LastGroup(Letter, 2, n, s[1..]);
    }
  }

  lemma {:induction false} OneLabel(n: nat, k: Rest, s: string)
    requires Blocks(k, Label) && |s| <= n && 1 <= n
    ensures var word := if s == "" then 0 else Span(s[1..], Label);
      Try(Then(Labels(n), k), s)
      == if Has(s, 0, '.') && word > 0 then Plus(1 + word, Try(k, s[1 + word..])) else None
  {
    hide Try, Blocks;
    var parts := [Lit('.'), Rep(Cls(Label), 1, n)];
    AllIsChain(parts, k, s);
    ChainStep(parts, k);
    ChainStep(parts[1..], k);
    assert parts[1..][1..] == [];
    MatchesLit('.', Then(Rep(Cls(Label), 1, n), k), s);
    if Has(s, 0, '.') {
      ExactGroup(Label, 1, n, k, s[1..]);
      assert s[1..][Span(s[1..], Label)..] == s[1 + Span(s[1..], Label)..];
    }
  }

  lemma {:induction false} DotBlocksLabels(n: nat, hi: nat)
    ensures Blocks(Then(Rep(Labels(n), 0, hi), TopLevel(n)), Label)
  {
    hide Try;
    forall u: string | At(u, 0, Label)
      ensures Try(Then(Rep(Labels(n), 0, hi), TopLevel(n)), u).None?
    {
      var k := Then(Rep(Labels(n), 0, if hi > 0 then hi - 1 else 0), TopLevel(n));
      MatchesLit('.', Then(Rep(Cls(Letter), 2, n), Done), u);
      if hi > 0 {
        RepeatsOrStops(Labels(n), hi, TopLevel(n), u);
        var parts := [Lit('.'), Rep(Cls(Label), 1, n)];
        AllIsChain(parts, k, u);
        ChainStep(parts, k);
        MatchesLit('.', Chain(parts[1..], k), u);
      } else {
        RepeatsNothing(Labels(n), TopLevel(n), u);
      }
    }
  }

  lemma {:induction false} LettersAreLabels(s: string)
    ensures Span(s, Letter) <= Span(s, Label)
  {
    if At(s, 0, Letter) {
      LettersAreLabels(s[1..]);
    }
  }

  lemma {:induction false} DomainTailIsPattern(n: nat, hi: nat, s: string)
    requires |s| <= hi <= n && 2 <= n
    ensures Try(Then(Rep(Labels(n), 0, hi), TopLevel(n)), s) == Found(DomainTail(s))
    decreases hi
  {
    hide Try, Blocks;
    TopLevelIsLetters(n, s);
    if hi == 0 {
      RepeatsNothing(Labels(n), TopLevel(n), s);
    } else {
      RepeatsOrStops(Labels(n), hi, TopLevel(n), s);
      DotBlocksLabels(n, hi - 1);
      OneLabel(n, Then(Rep(Labels(n), 0, hi - 1), TopLevel(n)), s);
      if Has(s, 0, '.') {
        LettersAreLabels(s[1..]);
        DomainTailIsPattern(n, hi - 1, s[1 + Span(s[1..], Label)..]);
      }
    }
  }

  lemma {:induction false} SignBlocksLocal(k: Rest)
    ensures Blocks(Then(Lit('@'), k), Local)
  {}

  lemma {:induction false} ChainCons(r: Regex, rs: seq<Regex>, k: Rest)
    ensures Chain([r] + rs, k) == Then(r, Chain(rs, k))
  {
    assert ([r] + rs)[1..] == rs;
  }

  lemma {:induction false} EmailChain(n: nat)
    ensures Chain(EmailRegex(n), Done)
         == Then(Rep(Cls(Local), 1, n), Then(Lit('@'), DomainRest(n)))
  {
    var r6 := [Rep(Cls(Letter), 2, n)] + [];
    var r5 := [Lit('.')] + r6;
    var r4 := [Rep(Labels(n), 0, n)] + r5;
    var r3 := [Rep(Cls(Label), 1, n)] + r4;
    var r2 := [Lit('@')] + r3;
    ChainCons(Rep(Cls(Letter), 2, n), [], Done);
    ChainCons(Lit('.'), r6, Done);
    ChainCons(Rep(Labels(n), 0, n), r5, Done);
    ChainCons(Rep(Cls(Label), 1, n), r4, Done);
    ChainCons(Lit('@'), r3, Done);
    ChainCons(Rep(Cls(Local), 1, n), r2, Done);
    assert EmailRegex(n) == [Rep(Cls(Local), 1, n)] + r2;
  }

  lemma {:induction false} Adds(n: nat, m: nat)
    requires n > 0
    ensures Plus(n, Found(m)) == Found(if m > 0 then n + m else 0)
  {}

  lemma {:induction false} DomainIsPattern(n: nat, s: string)
    requires |s| <= n && 2 <= n
    ensures Try(Then(Rep(Cls(Label), 1, n), Then(Rep(Labels(n), 0, n), TopLevel(n))), s) == Found(Domain(s))
  {
    hide Try, Blocks, DomainTail, Labels, TopLevel, Span, Plus;
    var word := Span(s, Label);
    DotBlocksLabels(n, n);
    ExactGroup(Label, 1, n, Then(Rep(Labels(n), 0, n), TopLevel(n)), s);
    if word > 0 {
      DomainTailIsPattern(n, n, s[word..]);
      Adds(word, DomainTail(s[word..]));
    }
  }

  function Signed(s: string): nat {
    if Has(s, 0, '@') && Domain(s[1..]) > 0 then 1 + Domain(s[1..]) else 0
  }

  function DomainRest(n: nat): Rest {
    Then(Rep(Cls(Label), 1, n), Then(Rep(Labels(n), 0, n), TopLevel(n)))
  }

  lemma {:induction false} SignedIsPattern(n: nat, s: string)
    requires |s| <= n && 2 <= n
    ensures Try(Then(Lit('@'), DomainRest(n)), s) == Found(Signed(s))
  {
    hide Try, Domain, Labels, TopLevel, Plus;
    MatchesLit('@', DomainRest(n), s);
    if Has(s, 0, '@') {
      DomainIsPattern(n, s[1..]);
      Adds(1, Domain(s[1..]));
    }
  }

  lemma {:induction false} EmailIsSigned(s: string)
    ensures var local := Span(s, Local);
      Email(s) == if local > 0 && Signed(s[local..]) > 0 then local + Signed(s[local..]) else 0
  {
    hide Domain, Span;
    var local := Span(s, Local);
    if Has(s, local, '@') {
      assert s[local..][1..] == s[local + 1..];
    }
  }

  lemma {:induction false} EmailIsPattern(n: nat, s: string)
    requires |s| <= n && 2 <= n
    ensures Try(Then(All(EmailRegex(n)), Done), s) == Found(Email(s))
  {
    AllIsChain(EmailRegex(n), Done, s);
    EmailChain(n);
    hide Try, Blocks, Span, Chain, All, Plus, Signed, Email, DomainRest;
    var local := Span(s, Local);
    SignBlocksLocal(DomainRest(n));
    ExactGroup(Local, 1, n, Then(Lit('@'), DomainRest(n)), s);
    EmailIsSigned(s);
    if local > 0 {
      SignedIsPattern(n, s[local..]);
      Adds(local, Signed(s[local..]));
    }
  }

  // ----- digit runs -----------------------------------------------------------------------

  lemma {:induction false} DigitBlocksSeparators(k: Rest)
    ensures Blocks(Then(Cls(Digit), k), RunSep)
  {}

  /** How far one more digit of a run reaches, with at most two separators before it. */
  function Joint(s: string): nat {
    if At(s, 0, RunSep) && At(s, 1, RunSep) && At(s, 2, Digit) then 3
    else if At(s, 0, RunSep) && At(s, 1, Digit) then 2
    else if At(s, 0, Digit) then 1 else 0
  }

  lemma {:induction false} SeparatedDigit(k: Rest, s: string)
    ensures var n := Span(s, RunSep);
      Try(Then(All([Rep(Cls(RunSep), 1, 2), Cls(Digit)]), k), s)
      == if 1 <= n <= 2 && At(s, n, Digit) then Plus(n + 1, Try(k, s[n + 1..])) else None
  {
    hide Try, Blocks, Span, All;
    var first, n := Rep(Cls(RunSep), 1, 2), Span(s, RunSep);
    ChainCons(Cls(Digit), [], k);
    ChainCons(first, [Cls(Digit)] + [], k);
    assert [first, Cls(Digit)] == [first] + ([Cls(Digit)] + []);
    AllIsChain([first, Cls(Digit)], k, s);
    DigitBlocksSeparators(k);
    ExactGroup(RunSep, 1, 2, Then(Cls(Digit), k), s);
    MatchesClass(Digit, k, s[n..]);
    if At(s, n, Digit) {
      assert s[n..][1..] == s[n + 1..];
    }
  }

  lemma {:induction false} JoinedIsPattern(k: Rest, s: string)
    requires forall u: string :: Try(k, u).Some?
    ensures Try(Then(JOINED_REGEX, k), s) == if Joint(s) > 0 then Plus(Joint(s), Try(k, s[Joint(s)..])) else None
  {
    JoinedTries(k, s);
    hide Try, Span, All;
    SeparatedDigit(k, s);
    MatchesClass(Digit, k, s);
    SpanOfAtMostTwo(s);
  }

  lemma {:induction false} JoinedTries(k: Rest, s: string)
    ensures Try(Then(JOINED_REGEX, k), s)
         == OrElse(Try(Then(All([Rep(Cls(RunSep), 1, 2), Cls(Digit)]), k), s), Try(Then(Cls(Digit), k), s))
  {}

  lemma {:induction false} SpanOfAtMostTwo(s: string)
    ensures Span(s, RunSep) >= 1 <==> At(s, 0, RunSep)
    ensures Span(s, RunSep) >= 2 <==> At(s, 0, RunSep) && At(s, 1, RunSep)
    ensures Span(s, RunSep) >= 3 <==> At(s, 0, RunSep) && At(s, 1, RunSep) && At(s, 2, RunSep)
  {
    if At(s, 0, RunSep) {
      assert At(s[1..], 0, RunSep) == At(s, 1, RunSep);
      if At(s, 1, RunSep) {
        assert s[1..][1..] == s[2..];
        assert Span(s, RunSep) == 1 + Span(s[1..], RunSep) == 2 + Span(s[2..], RunSep);
        assert Span(s[2..], RunSep) >= 1 <==> At(s[2..], 0, RunSep);
        assert At(s[2..], 0, RunSep) == At(s, 2, RunSep);
      }
    }
  }

  lemma {:induction false} RunTailIsPattern(hi: nat, s: string)
    ensures Try(Then(Rep(JOINED_REGEX, 0, hi), Done), s).Some?
    ensures |s| <= hi ==> Try(Then(Rep(JOINED_REGEX, 0, hi), Done), s) == Some(RunTail(s))
    decreases hi
  {
    hide Try;
    NothingLeft(s);
    if hi == 0 {
      RepeatsNothing(JOINED_REGEX, Done, s);
    } else {
      var k := Then(Rep(JOINED_REGEX, 0, hi - 1), Done);
      RepeatsOrStops(JOINED_REGEX, hi, Done, s);
      forall u: string
        ensures Try(k, u).Some?
      {
        RunTailIsPattern(hi - 1, u);
      }
      JoinedIsPattern(k, s);
      if |s| <= hi && Joint(s) > 0 {
        RunTailIsPattern(hi - 1, s[Joint(s)..]);
      }
    }
  }

  lemma {:induction false} RunIsPattern(n: nat, s: string)
    requires |s| <= n
    ensures Try(Then(All(RunRegex(n)), Done), s) == Found(Run(s))
  {
    hide Try, Chain, All, Plus, Unsigned, Run;
    var paren := Then(Opt(Lit('(')), Then(Cls(Digit), Then(Rep(JOINED_REGEX, 0, n), Done)));
    AllIsChain(RunRegex(n), Done, s);
    RunChain(n);
    MatchesOpt(Lit('+'), paren, s);
    MatchesLit('+', paren, s);
    ParenIsPattern(n, s);
    RunIsSignedOrNot(s);
    if Has(s, 0, '+') {
      ParenIsPattern(n, s[1..]);
      Adds(1, Unsigned(s[1..]));
    }
  }

  lemma {:induction false} RunIsSignedOrNot(s: string)
    ensures Has(s, 0, '+') ==> Unsigned(s) == 0
    ensures Run(s) == if Has(s, 0, '+') then (if Unsigned(s[1..]) > 0 then 1 + Unsigned(s[1..]) else 0)
                      else Unsigned(s)
  {
    hide RunTail;
    if Has(s, 0, '+') {
      var u := s[1..];
      var paren := if Has(u, 0, '(') then 1 else 0;
      if At(u, paren, Digit) {
        assert u[paren + 1..] == s[paren + 2..];
      }
    }
  }

  lemma {:induction false} RunChain(n: nat)
    ensures Chain(RunRegex(n), Done)
         == Then(Opt(Lit('+')), Then(Opt(Lit('(')), Then(Cls(Digit), Then(Rep(JOINED_REGEX, 0, n), Done))))
  {
    var r4 := [Rep(JOINED_REGEX, 0, n)] + [];
    var r3 := [Cls(Digit)] + r4;
    var r2 := [Opt(Lit('('))] + r3;
    ChainCons(Rep(JOINED_REGEX, 0, n), [], Done);
    ChainCons(Cls(Digit), r4, Done);
    ChainCons(Opt(Lit('(')), r3, Done);
    ChainCons(Opt(Lit('+')), r2, Done);
    assert RunRegex(n) == [Opt(Lit('+'))] + r2;
  }

  /** A run without its plus sign. */
  function Unsigned(s: string): nat {
    var paren := if Has(s, 0, '(') then 1 else 0;
    if At(s, paren, Digit) then paren + 1 + RunTail(s[paren + 1..]) else 0
  }

  lemma {:induction false} DigitsArePattern(n: nat, s: string)
    requires |s| <= n
    ensures Try(Then(Cls(Digit), Then(Rep(JOINED_REGEX, 0, n), Done)), s)
         == Found(if At(s, 0, Digit) then 1 + RunTail(s[1..]) else 0)
  {
    hide Try, RunTail;
    MatchesClass(Digit, Then(Rep(JOINED_REGEX, 0, n), Done), s);
    if At(s, 0, Digit) {
      RunTailIsPattern(n, s[1..]);
    }
  }

  lemma {:induction false} ParenIsPattern(n: nat, s: string)
    requires |s| <= n
    ensures Try(Then(Opt(Lit('(')), Then(Cls(Digit), Then(Rep(JOINED_REGEX, 0, n), Done))), s) == Found(Unsigned(s))
  {
    hide Try, RunTail, Plus;
    var digits := Then(Cls(Digit), Then(Rep(JOINED_REGEX, 0, n), Done));
    MatchesOpt(Lit('('), digits, s);
    MatchesLit('(', digits, s);
    DigitsArePattern(n, s);
    if Has(s, 0, '(') {
      DigitsArePattern(n, s[1..]);
      Adds(1, if At(s[1..], 0, Digit) then 1 + RunTail(s[1..][1..]) else 0);
      if At(s, 1, Digit) {
        assert s[1..][1..] == s[2..];
      }
    }
  }

  // ----- the whole pattern ----------------------------------------------------------------

  function FirstMatch(s: string): nat {
    if Date(s) > 0 then Date(s)
    else if Time(s) > 0 then Time(s)
    else if Email(s) > 0 then Email(s)
    else Run(s)
  }

  /** The four matchers, tried in order, take exactly what the pattern takes. */
  lemma {:induction false} MatchersAreThePattern(n: nat, s: string)
    requires |s| <= n && 2 <= n
    ensures Try(Then(WholePattern(n), Done), s) == Found(FirstMatch(s))
  {
    var date, time := Alt(All(FIRST_DATE_REGEX), All(LAST_DATE_REGEX)), All(TIME_REGEX);
    MatchesAlt(date, Alt(time, Alt(All(EmailRegex(n)), All(RunRegex(n)))), s);
    MatchesAlt(time, Alt(All(EmailRegex(n)), All(RunRegex(n))), s);
    MatchesAlt(All(EmailRegex(n)), All(RunRegex(n)), s);
    hide Try, Date, Time, Email, Run;
    DateIsPattern(s);
    TimeIsPattern(s);
    EmailIsPattern(n, s);
    RunIsPattern(n, s);
  }

  lemma {:induction false} MatchesAlt(a: Regex, b: Regex, s: string)
    ensures Try(Then(Alt(a, b), Done), s) == OrElse(Try(Then(a, Done), s), Try(Then(b, Done), s))
  {}

  /** So the scan moves by the length of the pattern's match, and by one where there is none. */
  lemma {:induction false} ScanFollowsThePattern(n: nat, s: string)
    requires s != "" && |s| <= n && 2 <= n
    ensures var m := Try(Then(WholePattern(n), Done), s);
      && (Next(s).Gap? <==> m.None?)
      && (m.Some? ==> Next(s).Length() == m.value)
  {
    hide Try, Date, Time, Email, Run, RunKind, PlausibleDate, PlausibleTime;
    MatchersAreThePattern(n, s);
  }
}
