/** Contact details out of the note text a model reads.

    One left-to-right scan: at each position a date, a time, an email and a digit run are
    tried in that order, and the first that matches is kept or replaced by a token.  Every
    matcher is given the rest of the text and answers how many characters it takes. */
module Redaction {
  import opened Options

  // ----- character classes --------------------------------------------------------------

  datatype Class = Digit | DateSep | Colon | Local | Label | Letter | RunSep

  predicate IsLetter(c: char) { 'a' <= c <= 'z' || 'A' <= c <= 'Z' }

  /** Western, Arabic-Indic and Extended Arabic-Indic digits. */
  predicate IsDigit(c: char) {
    '0' <= c <= '9' || '\U{0660}' <= c <= '\U{0669}' || '\U{06F0}' <= c <= '\U{06F9}'
  }

  predicate In(c: char, k: Class) {
    match k
    case Digit => IsDigit(c)
    case DateSep => c in "-/."
    case Colon => c == ':'
    case Local => IsLetter(c) || '0' <= c <= '9' || c in "._%+-"
    case Label => IsLetter(c) || '0' <= c <= '9' || c == '-'
    case Letter => IsLetter(c)
    case RunSep => c in " .()-"
  }

  /** Position `i` of `s` is in the class. */
  predicate At(s: string, i: nat, k: Class) { i < |s| && In(s[i], k) }

  predicate Has(s: string, i: nat, c: char) { i < |s| && s[i] == c }

  /** How far `s` begins with characters of the class. */
  function Span(s: string, k: Class): (n: nat)
    ensures n <= |s|
  {
    if At(s, 0, k) then 1 + Span(s[1..], k) else 0
  }

  // ----- the four matchers --------------------------------------------------------------

  /** A whole group of digits of a bounded length, or one character of a class. */
  datatype Atom = Digits(least: nat, most: nat) | One(k: Class)
  {
    predicate Valid() { Digits? ==> least >= 1 }
  }

  function AtomLength(a: Atom, s: string): (r: Option<nat>)
    ensures r.Some? ==> r.value <= |s|
  {
    match a
    case Digits(least, most) => if least <= Span(s, Digit) <= most then Some(Span(s, Digit)) else None
    case One(k) => if At(s, 0, k) then Some(1) else None
  }

  /** How much of `s` a list of atoms takes.  A digit group ends where the digits end, so the
      lookahead that no digit follows is part of every group. */
  function Shape(atoms: seq<Atom>, s: string): (r: Option<nat>)
    ensures r.Some? ==> r.value <= |s|
  {
    if atoms == [] then Some(0)
    else
      match AtomLength(atoms[0], s)
      case None => None
      case Some(n) =>
        match Shape(atoms[1..], s[n..])
        case None => None
        case Some(rest) => Some(n + rest)
  }

  const YEAR_FIRST := [Digits(4, 4), One(DateSep), Digits(1, 2), One(DateSep), Digits(1, 2)]
  const YEAR_LAST := [Digits(1, 2), One(DateSep), Digits(1, 2), One(DateSep), Digits(2, 4)]
  const CLOCK := [Digits(1, 2), One(Colon), Digits(2, 2)]
  const SECONDS := [One(Colon), Digits(2, 2)]

  function Date(s: string): (n: nat)
    ensures n <= |s|
  {
    var first := Shape(YEAR_FIRST, s);
    if first.Some? then first.value
    else
      var last := Shape(YEAR_LAST, s);
      if last.Some? then last.value else 0
  }

  /** The seconds are optional: they are left out when what follows is not two whole digits. */
  function Time(s: string): (n: nat)
    ensures n <= |s|
  {
    var clock := Shape(CLOCK, s);
    if clock.None? then 0
    else
      var seconds := Shape(SECONDS, s[clock.value..]);
      if seconds.Some? then clock.value + seconds.value else clock.value
  }

  /** What follows the first label of a domain: further labels, as many as leave a dot and two
      letters at the end. */
  function DomainTail(s: string): (n: nat)
    ensures n <= |s|
  {
    if !Has(s, 0, '.') || Span(s[1..], Label) == 0 then 0
    else
      var word := Span(s[1..], Label);
      var deeper := DomainTail(s[1 + word..]);
      if deeper > 0 then 1 + word + deeper
      else if Span(s[1..], Letter) >= 2 then 1 + Span(s[1..], Letter)
      else 0
  }

  function Domain(s: string): (n: nat)
    ensures n <= |s|
  {
    var word := Span(s, Label);
    var tail := DomainTail(s[word..]);
    if word > 0 && tail > 0 then word + tail else 0
  }

  function Email(s: string): (n: nat)
    ensures n <= |s|
  {
    var local := Span(s, Local);
    if local == 0 || !Has(s, local, '@') then 0
    else
      var domain := Domain(s[local + 1..]);
      if domain > 0 then local + 1 + domain else 0
  }

  /** The digits that follow the first of a run, each after at most two separators. */
  function RunTail(s: string): (n: nat)
    ensures n <= |s|
  {
    if At(s, 0, RunSep) && At(s, 1, RunSep) && At(s, 2, Digit) then 3 + RunTail(s[3..])
    else if At(s, 0, RunSep) && At(s, 1, Digit) then 2 + RunTail(s[2..])
    else if At(s, 0, Digit) then 1 + RunTail(s[1..])
    else 0
  }

  function RunHead(s: string): nat {
    var plus := if Has(s, 0, '+') then 1 else 0;
    if Has(s, plus, '(') then plus + 1 else plus
  }

  function Run(s: string): (n: nat)
    ensures n <= |s|
  {
    if At(s, RunHead(s), Digit) then RunHead(s) + 1 + RunTail(s[RunHead(s) + 1..]) else 0
  }

  // ----- what becomes of a match --------------------------------------------------------

  datatype Token = Phone | Mail | Id

  function Rendered(t: Token): string {
    match t
    case Phone => "[PHONE]"
    case Mail => "[EMAIL]"
    case Id => "[ID]"
  }

  function DigitCount(s: string): nat {
    if s == "" then 0 else DigitCount(s[1..]) + if IsDigit(s[0]) then 1 else 0
  }

  /** The maximal digit groups of a text. */
  function Groups(s: string): (gs: seq<string>)
    ensures forall i :: 0 <= i < |gs| ==> |gs[i]| > 0
    decreases |s|
  {
    if s == "" then []
    else if IsDigit(s[0]) then [s[..Span(s, Digit)]] + Groups(s[Span(s, Digit)..])
    else Groups(s[1..])
  }

  predicate Formatted(run: string) {
    |Groups(run)| > 1 || Has(run, 0, '+') || Has(run, 0, '(')
  }

  function RunKind(run: string): Option<Token> {
    if Formatted(run) then (if DigitCount(run) >= 7 then Some(Phone) else None)
    else if DigitCount(run) >= 8 then Some(Id) else None
  }

  function DigitValue(c: char): int {
    if '0' <= c <= '9' then c as int - '0' as int
    else if '\U{0660}' <= c <= '\U{0669}' then c as int - 0x660
    else c as int - 0x6F0
  }

  function Number(group: string): int {
    if group == "" then 0
    else Number(group[..|group| - 1]) * 10 + DigitValue(group[|group| - 1])
  }

  predicate InRange(month: int, day: int) { 1 <= month <= 12 && 1 <= day <= 31 }

  predicate PlausibleDate(text: string) {
    var gs := Groups(text);
    && |gs| == 3
    && var (a, b, c) := (Number(gs[0]), Number(gs[1]), Number(gs[2]));
    if |gs[0]| == 4 then InRange(b, c) else InRange(b, a) || InRange(a, b)
  }

  predicate PlausibleTime(text: string) {
    var gs := Groups(text);
    && |gs| >= 2
    && Number(gs[0]) <= 23 && Number(gs[1]) <= 59
    && forall i :: 2 <= i < |gs| ==> Number(gs[i]) <= 59
  }

  /** What the scan does at one position. */
  datatype Piece = Gap | Keep(n: nat) | Swap(n: nat, token: Token)
  {
    function Length(): nat { if Gap? then 1 else n }
  }

  function Classified(n: nat, kind: Option<Token>): Piece {
    if kind.Some? then Swap(n, kind.value) else Keep(n)
  }

  function Next(s: string): (p: Piece)
    ensures !p.Gap? ==> 0 < p.n <= |s|
  {
    if Date(s) > 0 then
      var n := Date(s);
      if PlausibleDate(s[..n]) then Keep(n) else Classified(n, RunKind(s[..n]))
    else if Time(s) > 0 then
      var n := Time(s);
      if PlausibleTime(s[..n]) then Keep(n) else Classified(n, RunKind(s[..n]))
    else if Email(s) > 0 then Swap(Email(s), Mail)
    else if Run(s) > 0 then Classified(Run(s), RunKind(s[..Run(s)]))
    else Gap
  }

  /** What one piece of `s` leaves in the text. */
  function Output(p: Piece, s: string): string
    requires p.Length() <= |s|
  {
    if p.Swap? then Rendered(p.token) else s[..p.Length()]
  }

  predicate Counts(p: Piece, t: Token) { p.Swap? && p.token == t }

  /** The redacted text, and how many of each kind were replaced. */
  datatype Redacted = Redacted(text: string, phone: nat, email: nat, id: nat)
  {
    /** This result and then that of the text that follows. */
    function Then(rest: Redacted): Redacted {
      Redacted(text + rest.text, phone + rest.phone, email + rest.email, id + rest.id)
    }
  }

  const NOTHING := Redacted("", 0, 0, 0)

  function ResultOf(p: Piece, s: string): Redacted
    requires p.Length() <= |s|
  {
    Redacted(Output(p, s), if Counts(p, Phone) then 1 else 0,
             if Counts(p, Mail) then 1 else 0, if Counts(p, Id) then 1 else 0)
  }

  function Redact(s: string): Redacted
    decreases |s|
  {
    if s == "" then NOTHING else ResultOf(Next(s), s).Then(Redact(s[Next(s).Length()..]))
  }

  lemma {:induction false} ThenIsAssociative(a: Redacted, b: Redacted, c: Redacted)
    ensures a.Then(b).Then(c) == a.Then(b.Then(c))
  {}

  /** The scan as it runs. */
  method RedactText(text: string) returns (r: Redacted)
    ensures r == Redact(text)
  {
    r := NOTHING;
    var i := 0;
    while i < |text|
      invariant 0 <= i <= |text|
      invariant Redact(text) == r.Then(Redact(text[i..]))
    {
      var s := text[i..];
      var piece := Next(s);
      ThenIsAssociative(r, ResultOf(piece, s), Redact(s[piece.Length()..]));
      assert s[piece.Length()..] == text[i + piece.Length()..];
      r := r.Then(ResultOf(piece, s));
      i := i + piece.Length();
    }
  }
}
