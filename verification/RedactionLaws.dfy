/** Laws of the redaction scan: it is idempotent, it conserves what it does not replace, and
    it leaves no long run of digits.

    Everything rests on one fact.  The redacted text agrees with the original up to the first
    replaced match, where it has a `[`, which no matcher accepts; and that point never splits
    a group of digits.  So every matcher answers the same on both, as far as it got. */
module RedactionLaws {
  import opened Options
  import opened Redaction

  /** `t` agrees with `s` up to `i`, where they are both at their end or `t` ends, or goes on
      with a bracket, at a point of `s` that does not split a group of digits. */
  ghost predicate Cut(s: string, t: string, i: nat) {
    && i <= |s| && i <= |t| && s[..i] == t[..i]
    && (i == |s| == |t| || (i < |s| && (i == |t| || Has(t, i, '[')) && !Splits(s, i)))
  }

  /** `i` lies inside a group of digits of `s`. */
  ghost predicate Splits(s: string, i: nat) {
    0 < i < |s| && IsDigit(s[i - 1]) && IsDigit(s[i])
  }

  lemma {:induction false} CutSuffix(s: string, t: string, i: nat, a: nat)
    requires Cut(s, t, i) && a <= i
    ensures Cut(s[a..], t[a..], i - a)
  {
    assert s[a..][..i - a] == s[..i][a..];
    assert t[a..][..i - a] == t[..i][a..];
  }

  lemma {:induction false} CutAt(s: string, t: string, i: nat, j: nat, k: Class)
    requires Cut(s, t, i)
    ensures j < i ==> At(t, j, k) == At(s, j, k)
    ensures j == i ==> !At(t, j, k)
  {
    if j < i {
      assert t[j] == t[..i][j] == s[..i][j] == s[j];
    }
  }

  lemma {:induction false} CutHas(s: string, t: string, i: nat, j: nat, c: char)
    requires Cut(s, t, i) && c != '['
    ensures j < i ==> Has(t, j, c) == Has(s, j, c)
    ensures j == i ==> !Has(t, j, c)
  {
    if j < i {
      assert t[j] == t[..i][j] == s[..i][j] == s[j];
    }
  }

  lemma {:induction false} SpanIsMaximal(s: string, k: Class, i: nat)
    requires i <= Span(s, k)
    ensures At(s, i, k) <==> i < Span(s, k)
  {
    if 0 < i {
      SpanIsMaximal(s[1..], k, i - 1);
    }
  }

  lemma {:induction false} CutSpan(s: string, t: string, i: nat, k: Class)
    requires Cut(s, t, i)
    ensures Span(t, k) == if Span(s, k) < i then Span(s, k) else i
  {
    CutAt(s, t, i, 0, k);
    if i > 0 && At(s, 0, k) {
      CutSuffix(s, t, i, 1);
      CutSpan(s[1..], t[1..], i - 1, k);
    }
  }

  /** A group of digits that begins before the cut ends before it. */
  lemma {:induction false} CutDigits(s: string, t: string, i: nat)
    requires Cut(s, t, i) && i > 0
    ensures Span(s, Digit) <= i && Span(t, Digit) == Span(s, Digit)
  {
    CutSpan(s, t, i, Digit);
    if i < Span(s, Digit) {
      SpanIsMaximal(s, Digit, i - 1);
      SpanIsMaximal(s, Digit, i);
    }
  }

  // ----- each matcher across a cut ------------------------------------------------------

  ghost predicate ValidAtoms(atoms: seq<Atom>) {
    forall i :: 0 <= i < |atoms| ==> atoms[i].Valid()
  }

  lemma {:induction false} CutAtom(a: Atom, s: string, t: string, i: nat)
    requires Cut(s, t, i) && a.Valid()
    ensures i == 0 ==> AtomLength(a, t).None?
    ensures i > 0 ==> AtomLength(a, t) == AtomLength(a, s)
    ensures AtomLength(a, t).Some? ==> AtomLength(a, t).value <= i
  {
    match a
    case Digits(_, _) =>
      CutSpan(s, t, i, Digit);
      if i > 0 {
        CutDigits(s, t, i);
      }
    case One(k) => CutAt(s, t, i, 0, k);
  }

  /** What matches after the cut matched before it, and what matched before it within the cut
      still does. */
  lemma {:induction false} CutShape(atoms: seq<Atom>, s: string, t: string, i: nat)
    requires Cut(s, t, i) && ValidAtoms(atoms)
    ensures Shape(atoms, t).Some? ==> Shape(atoms, t).value <= i && Shape(atoms, s) == Shape(atoms, t)
    ensures Shape(atoms, s).Some? && Shape(atoms, s).value <= i ==> Shape(atoms, t) == Shape(atoms, s)
  {
    hide Cut, AtomLength;
    if atoms != [] {
      CutAtom(atoms[0], s, t, i);
      var n := AtomLength(atoms[0], s);
      if n.Some? && n.value <= i {
        CutSuffix(s, t, i, n.value);
        CutShape(atoms[1..], s[n.value..], t[n.value..], i - n.value);
        AtomTakes(atoms[0], s);
      }
    }
  }

  lemma {:induction false} AtomTakes(a: Atom, s: string)
    requires a.Valid() && AtomLength(a, s).Some?
    ensures AtomLength(a, s).value > 0
  {}

  lemma {:induction false} CutDate(s: string, t: string, i: nat)
    requires Cut(s, t, i)
    ensures Date(t) > 0 ==> Date(s) == Date(t) <= i
    ensures 0 < Date(s) <= i ==> Date(t) == Date(s)
  {
    CutShape(YEAR_FIRST, s, t, i);
    CutShape(YEAR_LAST, s, t, i);
    assert YEAR_FIRST[0] == Digits(4, 4) && YEAR_LAST[0] == Digits(1, 2);
  }

  lemma {:induction false} CutTime(s: string, t: string, i: nat)
    requires Cut(s, t, i)
    ensures Time(t) > 0 ==> Time(s) > 0
    ensures 0 < Time(s) <= i ==> Time(t) == Time(s)
  {
    CutShape(CLOCK, s, t, i);
    var clock := Shape(CLOCK, s);
    if clock.Some? && clock.value <= i {
      CutSuffix(s, t, i, clock.value);
      CutShape(SECONDS, s[clock.value..], t[clock.value..], i - clock.value);
    }
  }

  lemma {:induction false} CutBounds(s: string, t: string, i: nat)
    requires Cut(s, t, i)
    ensures i <= |s| && i <= |t|
  {}

  lemma {:induction false} DomainTailUnfolds(s: string)
    ensures (DomainTail(s) > 0
             <==> Has(s, 0, '.') && Span(s[1..], Label) > 0
                  && (DomainTail(s[1 + Span(s[1..], Label)..]) > 0 || Span(s[1..], Letter) >= 2))
  {}

  lemma {:induction false} CutDomainTail(s: string, t: string, i: nat)
    requires Cut(s, t, i) && DomainTail(t) > 0
    ensures DomainTail(s) > 0
  {
    hide Cut, Span, DomainTail;
    CutBounds(s, t, i);
    DomainTailUnfolds(s);
    DomainTailUnfolds(t);
    CutHas(s, t, i, 0, '.');
    CutSuffix(s, t, i, 1);
    CutSpan(s[1..], t[1..], i - 1, Label);
    CutSpan(s[1..], t[1..], i - 1, Letter);
    var n := Span(t[1..], Label);
    if DomainTail(t[1 + n..]) > 0 {
      if 1 + n == i {
        DomainTailUnfolds(t[i..]);
        CutHas(s, t, i, i, '.');
      } else {
        CutSuffix(s, t, i, 1 + n);
        CutDomainTail(s[1 + n..], t[1 + n..], i - 1 - n);
      }
    }
  }

  lemma {:induction false} CutDomain(s: string, t: string, i: nat)
    requires Cut(s, t, i) && Domain(t) > 0
    ensures Domain(s) > 0
  {
    var n := Span(t, Label);
    CutSpan(s, t, i, Label);
    CutSuffix(s, t, i, n);
    CutDomainTail(s[n..], t[n..], i - n);
  }

  lemma {:induction false} LocalPartAgrees(s: string, t: string, i: nat)
    requires Cut(s, t, i) && Has(t, Span(t, Local), '@')
    ensures Span(t, Local) < i && Span(s, Local) == Span(t, Local) && Has(s, Span(s, Local), '@')
  {
    CutSpan(s, t, i, Local);
    CutHas(s, t, i, Span(t, Local), '@');
  }

  lemma {:induction false} CutEmail(s: string, t: string, i: nat)
    requires Cut(s, t, i) && Email(t) > 0
    ensures Email(s) > 0
  {
    hide Cut, Domain, Span;
    CutBounds(s, t, i);
    var n := Span(t, Local);
    LocalPartAgrees(s, t, i);
    CutSuffix(s, t, i, n + 1);
    CutDomain(s[n + 1..], t[n + 1..], i - n - 1);
  }

  lemma {:induction false} CutRunTail(s: string, t: string, i: nat)
    requires Cut(s, t, i) && RunTail(s) <= i
    ensures RunTail(t) == RunTail(s)
  {
    CutAt(s, t, i, 0, RunSep);
    CutAt(s, t, i, 1, RunSep);
    CutAt(s, t, i, 0, Digit);
    CutAt(s, t, i, 1, Digit);
    CutAt(s, t, i, 2, Digit);
    if RunTail(s) > 0 {
      var n := if At(s, 0, RunSep) && At(s, 1, RunSep) && At(s, 2, Digit) then 3
               else if At(s, 0, RunSep) && At(s, 1, Digit) then 2 else 1;
      CutSuffix(s, t, i, n);
      CutRunTail(s[n..], t[n..], i - n);
    }
  }

  lemma {:induction false} CutRunHead(s: string, t: string, i: nat)
    requires Cut(s, t, i)
    ensures Run(t) > 0 ==> RunHead(s) == RunHead(t) < i
    ensures 0 < Run(s) <= i ==> RunHead(s) == RunHead(t) < i
    ensures Run(t) > 0 ==> Run(s) > 0
  {
    CutHas(s, t, i, 0, '+');
    CutHas(s, t, i, 0, '(');
    CutHas(s, t, i, 1, '(');
    CutAt(s, t, i, 0, Digit);
    CutAt(s, t, i, 1, Digit);
    CutAt(s, t, i, 2, Digit);
  }

  lemma {:induction false} CutRun(s: string, t: string, i: nat)
    requires Cut(s, t, i)
    ensures Run(t) > 0 ==> Run(s) > 0
    ensures 0 < Run(s) <= i ==> Run(t) == Run(s)
  {
    CutRunHead(s, t, i);
    if 0 < Run(s) <= i {
      var n := RunHead(s);
      CutAt(s, t, i, n, Digit);
      CutSuffix(s, t, i, n + 1);
      CutRunTail(s[n + 1..], t[n + 1..], i - n - 1);
    }
  }

  lemma {:induction false} SameStart(s: string, t: string, i: nat, n: nat)
    requires Cut(s, t, i) && n <= i
    ensures t[..n] == s[..n]
  {
    assert t[..n] == t[..i][..n] && s[..n] == s[..i][..n];
  }

  /** What the scan kept it keeps again, and what it passed over it passes over again. */
  lemma {:induction false} CutNext(s: string, t: string, i: nat)
    requires Cut(s, t, i) && 0 < i
    requires !Next(s).Swap? && Next(s).Length() <= i
    ensures Next(t) == Next(s)
  {
    hide Cut, Date, Time, Email, Run, RunKind, PlausibleDate, PlausibleTime;
    CutDate(s, t, i);
    SameStart(s, t, i, Next(s).Length());
    if Date(s) == 0 {
      CutTime(s, t, i);
      if Time(s) == 0 {
        CutRun(s, t, i);
        if Email(t) > 0 {
          CutEmail(s, t, i);
        }
      }
    }
  }

  // ----- where a match can end ----------------------------------------------------------

  lemma {:induction false} ShapeEndsClean(atoms: seq<Atom>, s: string)
    requires atoms != [] && atoms[|atoms| - 1].Digits? && Shape(atoms, s).Some?
    ensures !At(s, Shape(atoms, s).value, Digit)
  {
    var n := AtomLength(atoms[0], s).value;
    if |atoms| > 1 {
      ShapeEndsClean(atoms[1..], s[n..]);
    } else {
      assert Shape(atoms[1..], s[n..]) == Some(0);
      SpanIsMaximal(s, Digit, n);
    }
  }

  lemma {:induction false} RunTailEndsClean(s: string)
    ensures !At(s, RunTail(s), Digit)
  {
    if RunTail(s) > 0 {
      var n := if At(s, 0, RunSep) && At(s, 1, RunSep) && At(s, 2, Digit) then 3
               else if At(s, 0, RunSep) && At(s, 1, Digit) then 2 else 1;
      RunTailEndsClean(s[n..]);
    }
  }

  lemma {:induction false} DateEndsClean(s: string)
    requires Date(s) > 0
    ensures !At(s, Date(s), Digit)
  {
    if Shape(YEAR_FIRST, s).Some? {
      ShapeEndsClean(YEAR_FIRST, s);
    } else {
      ShapeEndsClean(YEAR_LAST, s);
    }
  }

  lemma {:induction false} TimeEndsClean(s: string)
    requires Time(s) > 0
    ensures !At(s, Time(s), Digit)
  {
    var n := Shape(CLOCK, s).value;
    ShapeEndsClean(CLOCK, s);
    if Shape(SECONDS, s[n..]).Some? {
      ShapeEndsClean(SECONDS, s[n..]);
    }
  }

  lemma {:induction false} RunEndsClean(s: string)
    ensures Run(s) == 0 && s != "" ==> !IsDigit(s[0])
    ensures Run(s) > 0 ==> !At(s, Run(s), Digit)
  {
    if Run(s) > 0 {
      RunTailEndsClean(s[RunHead(s) + 1..]);
    }
  }

  /** No match that may be kept stops inside a group of digits, and no digit is passed over. */
  lemma {:induction false} PiecesEndClean(s: string)
    requires s != "" && !Next(s).Swap?
    ensures Next(s).Gap? ==> !IsDigit(s[0])
    ensures Next(s).Keep? ==> !At(s, Next(s).n, Digit)
  {
    if Date(s) > 0 {
      DateEndsClean(s);
    } else if Time(s) > 0 {
      TimeEndsClean(s);
    } else {
      RunEndsClean(s);
    }
  }

  /** Where the first replaced match of `s` begins. */
  function FirstSwap(s: string): nat
    decreases |s|
  {
    if s == "" || Next(s).Swap? then 0
    else Next(s).Length() + FirstSwap(s[Next(s).Length()..])
  }

  lemma {:induction false} RedactsPieceByPiece(s: string)
    requires s != ""
    ensures Redact(s).text == Output(Next(s), s) + Redact(s[Next(s).Length()..]).text
  {}

  lemma {:induction false} NothingCuts()
    ensures Cut("", Redact("").text, FirstSwap(""))
  {}

  lemma {:induction false} SwapCuts(s: string)
    requires s != "" && Next(s).Swap?
    ensures Cut(s, Redact(s).text, 0)
    ensures Has(Redact(s).text, 0, '[')
  {
    RedactsPieceByPiece(s);
  }

  lemma {:induction false} KeepCuts(s: string, n: nat, u: string, i: nat)
    requires s != "" && !Next(s).Swap? && Next(s).Length() == n
    requires Cut(s[n..], u, i)
    ensures Cut(s, s[..n] + u, n + i)
  {
    PiecesEndClean(s);
    CutGlued(s, n, u, i);
  }

  /** The redacted text is the original cut at the first replaced match, where it has a
      bracket. */
  lemma {:induction false} RedactionCuts(s: string)
    ensures Cut(s, Redact(s).text, FirstSwap(s))
    ensures FirstSwap(s) < |s| ==> Has(Redact(s).text, FirstSwap(s), '[')
    decreases |s|
  {
    hide Next, Cut;
    if s == "" {
      NothingCuts();
    } else {
      if Next(s).Swap? {
        SwapCuts(s);
      } else {
        var n := Next(s).Length();
        RedactionCuts(s[n..]);
        RedactsPieceByPiece(s);
        KeepCuts(s, n, Redact(s[n..]).text, FirstSwap(s[n..]));
      }
    }
  }

  lemma {:induction false} CutGlued(s: string, n: nat, u: string, i: nat)
    requires 0 < n <= |s| && Cut(s[n..], u, i)
    requires n < |s| && IsDigit(s[n]) ==> !IsDigit(s[n - 1])
    ensures Cut(s, s[..n] + u, n + i)
  {
    var t := s[..n] + u;
    assert t[n..] == u && s == s[..n] + s[n..];
    assert s[..n + i] == s[..n] + s[n..][..i];
    assert t[..n + i] == s[..n] + u[..i];
    if i > 0 && n + i < |s| {
      assert s[n + i] == s[n..][i] && s[n + i - 1] == s[n..][i - 1];
    }
  }

  // ----- idempotence --------------------------------------------------------------------

  /** A character that begins no date, time or run, and is not the sign of an email. */
  predicate Inert(c: char) { !IsDigit(c) && c != '+' && c != '(' && c != '@' }

  /** A text that the scan passes over character by character, whatever follows it. */
  ghost predicate IsToken(tok: string) {
    && (forall i :: 0 <= i < |tok| ==> Inert(tok[i]))
    && tok != "" && tok[|tok| - 1] == ']'
  }

  lemma {:induction false} RenderedIsToken(t: Token)
    ensures IsToken(Rendered(t))
  {
    match t
    case Phone => assert Rendered(t) == ['[', 'P', 'H', 'O', 'N', 'E', ']'];
    case Mail => assert Rendered(t) == ['[', 'E', 'M', 'A', 'I', 'L', ']'];
    case Id => assert Rendered(t) == ['[', 'I', 'D', ']'];
  }

  lemma {:induction false} NoMatchWithoutDigit(s: string)
    requires s != "" && !IsDigit(s[0]) && s[0] != '+' && s[0] != '(' && Email(s) == 0
    ensures Next(s) == Gap
  {
    assert YEAR_FIRST[0] == Digits(4, 4) && YEAR_LAST[0] == Digits(1, 2) && CLOCK[0] == Digits(1, 2);
  }

  lemma {:induction false} NoEmailInToken(tok: string, u: string)
    requires IsToken(tok)
    ensures Email(tok + u) == 0
  {
    var s, m := tok + u, |tok| - 1;
    if Email(s) > 0 {
      var n := Span(s, Local);
      if m < n {
        SpanIsMaximal(s, Local, m);
      }
    }
  }

  /** A text whose first piece is kept, or passed over, is that piece and the rest redacted. */
  lemma {:induction false} KeepsFirstPiece(x: string, rest: string)
    requires x != "" && !Next(x + rest).Swap? && Next(x + rest).Length() == |x|
    ensures Redact(x + rest) == Redact(rest).(text := x + Redact(rest).text)
  {
    assert (x + rest)[|x|..] == rest && (x + rest)[..|x|] == x;
  }

  lemma {:induction false} TokenHead(tok: string, u: string)
    requires IsToken(tok)
    ensures tok + u == tok[..1] + (tok[1..] + u)
    ensures Redact(tok + u) == Redact(tok[1..] + u).(text := tok[..1] + Redact(tok[1..] + u).text)
  {
    NoEmailInToken(tok, u);
    NoMatchWithoutDigit(tok + u);
    assert tok + u == tok[..1] + (tok[1..] + u);
    KeepsFirstPiece(tok[..1], tok[1..] + u);
  }

  lemma {:induction false} TokenIsPassedOver(tok: string, u: string)
    requires tok == "" || IsToken(tok)
    ensures Redact(tok + u) == Redact(u).(text := tok + Redact(u).text)
  {
    if tok == "" {
      assert tok + u == u;
    } else {
      TokenHead(tok, u);
      TokenTail(tok);
      TokenIsPassedOver(tok[1..], u);
      Reassociate(tok, Redact(u).text);
    }
  }

  lemma {:induction false} TokenTail(tok: string)
    requires IsToken(tok)
    ensures tok[1..] == "" || IsToken(tok[1..])
  {}

  lemma {:induction false} Reassociate(s: string, rest: string)
    requires s != ""
    ensures s[..1] + (s[1..] + rest) == s + rest
  {}

  /** The text of a redaction, with nothing counted. */
  function Clean(s: string): Redacted { Redacted(Redact(s).text, 0, 0, 0) }

  lemma {:induction false} KeptPieceStaysFirst(s: string, n: nat, rest: string, i: nat)
    requires s != "" && !Next(s).Swap? && Next(s).Length() == n
    requires Cut(s[n..], rest, i)
    ensures Next(s[..n] + rest) == Next(s)
  {
    KeepCuts(s, n, rest, i);
    CutNext(s, s[..n] + rest, n + i);
  }

  lemma {:induction false} KeptPieceIsKept(s: string, n: nat, rest: string, i: nat)
    requires s != "" && !Next(s).Swap? && Next(s).Length() == n
    requires Cut(s[n..], rest, i)
    requires Redact(rest) == Redacted(rest, 0, 0, 0)
    ensures Redact(s[..n] + rest) == Redacted(s[..n] + rest, 0, 0, 0)
  {
    KeptPieceStaysFirst(s, n, rest, i);
    KeepsFirstPiece(s[..n], rest);
  }

  /** Redacting redacted text returns it unchanged and counts nothing. */
  lemma {:induction false} RedactionIsIdempotent(s: string)
    ensures Redact(Redact(s).text) == Clean(s)
    decreases |s|
  {
    if s != "" {
      var n := Next(s).Length();
      RedactionIsIdempotent(s[n..]);
      RedactsPieceByPiece(s);
      if Next(s).Swap? {
        RenderedIsToken(Next(s).token);
        TokenIsPassedOver(Rendered(Next(s).token), Redact(s[n..]).text);
      } else {
        RedactionCuts(s[n..]);
        KeptPieceIsKept(s, n, Redact(s[n..]).text, FirstSwap(s[n..]));
      }
    }
  }

  // ----- conservation -------------------------------------------------------------------

  /** The text of `s` that each piece stands for, with what the piece is. */
  datatype Item = Item(source: string, piece: Piece)
  {
    function Left(): string {
      match piece
      case Swap(_, Phone) => "[PHONE]"
      case Swap(_, Mail) => "[EMAIL]"
      case Swap(_, Id) => "[ID]"
      case _ => source
    }
  }

  function Items(s: string): seq<Item>
    decreases |s|
  {
    if s == "" then []
    else
      var n := Next(s).Length();
      [Item(s[..n], Next(s))] + Items(s[n..])
  }

  function Sources(items: seq<Item>): string {
    if items == [] then "" else items[0].source + Sources(items[1..])
  }

  function Remains(items: seq<Item>): string {
    if items == [] then "" else items[0].Left() + Remains(items[1..])
  }

  function Inserted(items: seq<Item>, t: Token): nat {
    if items == [] then 0
    else Inserted(items[1..], t) + if items[0].piece.Swap? && items[0].piece.token == t then 1 else 0
  }

  /** The pieces are the whole of the text, in order. */
  lemma {:induction false} PiecesAreTheText(s: string)
    ensures Sources(Items(s)) == s
    decreases |s|
  {
    if s != "" {
      PiecesAreTheText(s[Next(s).Length()..]);
    }
  }

  /** The redacted text is the same pieces with only the replaced ones changed. */
  lemma {:induction false} OnlyReplacedPiecesChange(s: string)
    ensures Remains(Items(s)) == Redact(s).text
    decreases |s|
  {
    if s != "" {
      OnlyReplacedPiecesChange(s[Next(s).Length()..]);
      RedactsPieceByPiece(s);
    }
  }

  /** Each count is the number of tokens of its kind. */
  lemma {:induction false} CountsAreTokens(s: string)
    ensures Redact(s).phone == Inserted(Items(s), Phone)
    ensures Redact(s).email == Inserted(Items(s), Mail)
    ensures Redact(s).id == Inserted(Items(s), Id)
    decreases |s|
  {
    if s != "" {
      CountsAreTokens(s[Next(s).Length()..]);
    }
  }

  // ----- residue ------------------------------------------------------------------------

  /** What may stay in the text: a date or a time from end to end that could be a real one, or
      anything with too few digits to be a phone number or an id. */
  predicate Harmless(text: string) {
    || (Date(text) == |text| && PlausibleDate(text))
    || (Date(text) == 0 && Time(text) == |text| && PlausibleTime(text))
    || DigitCount(text) < (if Formatted(text) then 7 else 8)
  }

  /** A match on its own, without the text that followed it. */
  lemma {:induction false} MatchStandsAlone(s: string, n: nat)
    requires n <= |s| && !At(s, n, Digit)
    ensures Cut(s, s[..n], n)
  {}

  /** A match on its own is still the same kind of match, from end to end. */
  lemma {:induction false} MatchKeepsItsKind(s: string)
    requires s != "" && !Next(s).Gap? && !(Date(s) == 0 && Time(s) == 0 && Email(s) > 0)
    ensures var text := s[..Next(s).n];
      && (Date(s) > 0 ==> Date(text) == |text|)
      && (Date(s) == 0 ==> Date(text) == 0)
      && (Date(s) == 0 && Time(s) > 0 ==> Time(text) == |text|)
      && (Date(s) == 0 && Time(s) == 0 ==> Time(text) == 0)
  {
    hide Cut, Date, Time, Email, Run, RunKind, PlausibleDate, PlausibleTime;
    var n := Next(s).n;
    if Date(s) > 0 {
      DateEndsClean(s);
    } else if Time(s) > 0 {
      TimeEndsClean(s);
    } else {
      RunEndsClean(s);
    }
    MatchStandsAlone(s, n);
    CutDate(s, s[..n], n);
    CutTime(s, s[..n], n);
  }

  /** Exactly what becomes of every match that is not an email: it is kept if and only if it is
      harmless, and otherwise its shape says which token replaces it. */
  lemma {:induction false} KeptExactlyWhenHarmless(s: string)
    requires s != "" && !Next(s).Gap? && !(Date(s) == 0 && Time(s) == 0 && Email(s) > 0)
    ensures var text := s[..Next(s).n];
      && (Next(s) == Keep(|text|) <==> Harmless(text))
      && (Next(s) == Swap(|text|, Phone) <==> !Harmless(text) && Formatted(text))
      && (Next(s) == Swap(|text|, Id) <==> !Harmless(text) && !Formatted(text))
  {
    hide Date, Time, Email, Run, DigitCount, Formatted, PlausibleDate, PlausibleTime;
    MatchKeepsItsKind(s);
  }

  lemma {:induction false} ItemsStep(s: string)
    requires s != ""
    ensures var n := Next(s).Length();
      Items(s) == [Item(s[..n], Next(s))] + Items(s[n..])
  {}

  lemma {:induction false} KeptIsHarmless(s: string)
    requires s != "" && Next(s).Keep?
    ensures Harmless(s[..Next(s).n])
  {
    KeptExactlyWhenHarmless(s);
  }

  lemma {:induction false} KeptItemsAreHarmless(s: string, i: nat)
    requires i < |Items(s)| && Items(s)[i].piece.Keep?
    ensures Harmless(Items(s)[i].source)
    decreases |s|
  {
    ItemsStep(s);
    if i == 0 {
      KeptIsHarmless(s);
    } else {
      KeptItemsAreHarmless(s[Next(s).Length()..], i - 1);
    }
  }

  lemma {:induction false} NothingInserted(items: seq<Item>, t: Token, i: nat)
    requires i < |items| && Inserted(items, t) == 0
    ensures items[i].piece.Swap? ==> items[i].piece.token != t
  {
    if i > 0 {
      NothingInserted(items[1..], t, i - 1);
    }
  }

  /** Whatever the scan still finds in redacted text is a possible date or time from end to end,
      or too short to be a phone number or an id: a run of digits joined by separators that is
      neither has at most 6 digits. */
  lemma {:induction false} ResidueIsHarmless(s: string, i: nat)
    requires i < |Items(Redact(s).text)|
    ensures var item := Items(Redact(s).text)[i];
      !item.piece.Swap? && (item.piece.Keep? ==> Harmless(item.source))
  {
    hide Redact, Items, Inserted, Harmless;
    var text := Redact(s).text;
    RedactionIsIdempotent(s);
    CountsAreTokens(text);
    NothingInserted(Items(text), Phone, i);
    NothingInserted(Items(text), Mail, i);
    NothingInserted(Items(text), Id, i);
    if Items(text)[i].piece.Keep? {
      KeptItemsAreHarmless(text, i);
    }
  }

  // ----- no long block of digits --------------------------------------------------------

  lemma {:induction false} SpanSuffix(s: string, k: Class, j: nat)
    requires j <= Span(s, k)
    ensures Span(s[j..], k) == Span(s, k) - j
  {
    if j > 0 {
      SpanSuffix(s[1..], k, j - 1);
      assert s[1..][j - 1..] == s[j..];
    }
  }

  /** Every group of digits in a date or a time is as short as its atom allows. */
  lemma {:induction false} ShapeHasShortGroups(atoms: seq<Atom>, s: string, j: nat)
    requires Shape(atoms, s).Some? && j < Shape(atoms, s).value
    requires forall i :: 0 <= i < |atoms| ==> atoms[i].Digits? ==> atoms[i].most <= 4
    requires forall i :: 0 <= i < |atoms| ==> atoms[i].One? ==> atoms[i].k in {DateSep, Colon}
    ensures Span(s[j..], Digit) <= 4
  {
    var n := AtomLength(atoms[0], s).value;
    if j < n {
      if atoms[0].Digits? {
        SpanSuffix(s, Digit, j);
      } else {
        assert s[j..] == s;
      }
    } else {
      ShapeHasShortGroups(atoms[1..], s[n..], j - n);
      assert s[n..][j - n..] == s[j..];
    }
  }

  lemma {:induction false} CountCoversSpan(s: string, n: nat, j: nat)
    requires j <= n <= |s| && !At(s, n, Digit)
    ensures Span(s[j..], Digit) <= DigitCount(s[..n])
    decreases n
  {
    if j < n {
      assert s[..n][1..] == s[1..][..n - 1];
      if j > 0 {
        CountCoversSpan(s[1..], n - 1, j - 1);
        assert s[1..][j - 1..] == s[j..];
      } else if At(s, 0, Digit) {
        CountCoversSpan(s[1..], n - 1, 0);
        assert s[1..][0..] == s[1..] && s[0..] == s;
      }
    }
  }

  lemma {:induction false} DateHasShortGroups(s: string, j: nat)
    requires j < Date(s)
    ensures Span(s[j..], Digit) <= 4
  {
    if Shape(YEAR_FIRST, s).Some? {
      ShapeHasShortGroups(YEAR_FIRST, s, j);
    } else {
      ShapeHasShortGroups(YEAR_LAST, s, j);
    }
  }

  lemma {:induction false} TimeHasShortGroups(s: string, j: nat)
    requires j < Time(s)
    ensures Span(s[j..], Digit) <= 4
  {
    var n := Shape(CLOCK, s).value;
    if j < n {
      ShapeHasShortGroups(CLOCK, s, j);
    } else {
      ShapeHasShortGroups(SECONDS, s[n..], j - n);
      assert s[n..][j - n..] == s[j..];
    }
  }

  lemma {:induction false} KeptPieceHasShortGroups(s: string, j: nat)
    requires s != "" && !Next(s).Swap? && j < Next(s).Length()
    ensures Span(s[j..], Digit) <= 7
  {
    PiecesEndClean(s);
    if Next(s).Gap? {
      assert s[j..] == s;
    } else if Date(s) > 0 {
      DateHasShortGroups(s, j);
    } else if Time(s) > 0 {
      TimeHasShortGroups(s, j);
    } else {
      CountCoversSpan(s, Next(s).n, j);
    }
  }

  lemma {:induction false} TokenHasNoDigits(t: Token, rest: string, j: nat)
    requires j < |Rendered(t)|
    ensures Span((Rendered(t) + rest)[j..], Digit) == 0
  {
    RenderedIsToken(t);
    assert (Rendered(t) + rest)[j..][0] == Rendered(t)[j];
  }

  lemma {:induction false} CutDigitsAt(s: string, t: string, i: nat, j: nat)
    requires Cut(s, t, i) && j < i
    ensures Span(t[j..], Digit) == Span(s[j..], Digit)
  {
    CutSuffix(s, t, i, j);
    CutDigits(s[j..], t[j..], i - j);
  }

  lemma {:induction false} KeptPieceKeepsItsGroups(s: string, j: nat)
    requires j < FirstSwap(s) && j <= |s| && j <= |Redact(s).text|
    ensures Span(Redact(s).text[j..], Digit) == Span(s[j..], Digit)
  {
    RedactionCuts(s);
    CutDigitsAt(s, Redact(s).text, FirstSwap(s), j);
  }

  /** No block of eight digits survives. */
  lemma {:induction false} NoLongDigitBlock(s: string, j: nat)
    requires j <= |Redact(s).text|
    ensures Span(Redact(s).text[j..], Digit) <= 7
    decreases |s|
  {
    if s != "" {
      var n := Next(s).Length();
      var out, rest := Output(Next(s), s), Redact(s[n..]).text;
      RedactsPieceByPiece(s);
      if j >= |out| {
        NoLongDigitBlock(s[n..], j - |out|);
        assert (out + rest)[j..] == rest[j - |out|..];
      } else if Next(s).Swap? {
        TokenHasNoDigits(Next(s).token, rest, j);
      } else {
        KeptPieceHasShortGroups(s, j);
        KeptPieceKeepsItsGroups(s, j);
      }
    }
  }
}
