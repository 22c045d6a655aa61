/** What redaction leaves of emails.

    An email is replaced where the scan meets it, but the scan may be past its beginning: a date,
    a time or a short run is kept, and the characters it ends with may be the local part of an
    email that goes on behind it. */
module Emails {
  import opened Options
  import opened Redaction
  import opened RedactionLaws

  /** An email is replaced where the scan meets it, if and only if no date and no time begins
      there. */
  lemma {:induction false} EmailsGoExactlyWhenFirst(s: string)
    requires s != "" && Email(s) > 0
    ensures Next(s) == Swap(Email(s), Mail) <==> Date(s) == 0 && Time(s) == 0
  {
    hide Date, Time, Email, Run, RunKind, PlausibleDate, PlausibleTime;
    RunKindIsNoMail(s[..Date(s)]);
    RunKindIsNoMail(s[..Time(s)]);
  }

  lemma {:induction false} RunKindIsNoMail(run: string)
    ensures RunKind(run) != Some(Mail)
  {}

  // ----- what is left of a domain ---------------------------------------------------------

  /** `s` up to the first match that is replaced. */
  function Untouched(s: string): (u: string)
  {
    RedactionCuts(s);
    s[..FirstSwap(s)]
  }

  /** `t` ends at `i`, or has a bracket there. */
  ghost predicate StopsAt(t: string, i: nat) { i <= |t| && (i == |t| || t[i] == '[') }

  lemma {:induction false} StopSuffix(t: string, i: nat, a: nat)
    requires StopsAt(t, i) && a <= i
    ensures StopsAt(t[a..], i - a) && t[..i][a..] == t[a..][..i - a]
  {}

  lemma {:induction false} SpanStops(t: string, i: nat, k: Class)
    requires StopsAt(t, i)
    ensures Span(t[..i], k) == Span(t, k) <= i
  {
    if i > 0 && In(t[0], k) {
      StopSuffix(t, i, 1);
      SpanStops(t[1..], i - 1, k);
    }
  }

  lemma {:induction false} DomainTailIs(s: string)
    ensures DomainTail(s) ==
      if !Has(s, 0, '.') || Span(s[1..], Label) == 0 then 0
      else
        var n := 1 + Span(s[1..], Label);
        if DomainTail(s[n..]) > 0 then n + DomainTail(s[n..])
        else if Span(s[1..], Letter) >= 2 then 1 + Span(s[1..], Letter)
        else 0
  {}

  lemma {:induction false} DomainTailStops(t: string, i: nat)
    requires StopsAt(t, i)
    ensures DomainTail(t[..i]) == DomainTail(t)
    decreases i
  {
    hide DomainTail, Span;
    DomainTailIs(t);
    DomainTailIs(t[..i]);
    if i > 0 && t[0] == '.' {
      StopSuffix(t, i, 1);
      SpanStops(t[1..], i - 1, Label);
      SpanStops(t[1..], i - 1, Letter);
      var n := 1 + Span(t[1..], Label);
      StopSuffix(t, i, n);
      DomainTailStops(t[n..], i - n);
    }
  }

  lemma {:induction false} DomainStops(t: string, i: nat)
    requires StopsAt(t, i)
    ensures Domain(t[..i]) == Domain(t)
  {
    SpanStops(t, i, Label);
    StopSuffix(t, i, Span(t, Label));
    DomainTailStops(t[Span(t, Label)..], i - Span(t, Label));
  }

  /** The domain at the front of a redacted text is the one before the first replaced match. */
  lemma {:induction false} DomainIsUntouched(s: string)
    ensures Domain(Redact(s).text) == Domain(Untouched(s))
  {
    RedactionCuts(s);
    DomainStops(Redact(s).text, FirstSwap(s));
  }

  // ----- a kept match holds no sign -------------------------------------------------------

  lemma {:induction false} SpanHolds(s: string, k: Class, j: nat)
    requires j < Span(s, k)
    ensures In(s[j], k)
  {
    if j > 0 { SpanHolds(s[1..], k, j - 1); }
  }

  lemma {:induction false} ShapeHoldsNoSign(atoms: seq<Atom>, s: string, j: nat)
    requires Shape(atoms, s).Some? && j < Shape(atoms, s).value
    ensures s[j] != '@'
  {
    var n := AtomLength(atoms[0], s).value;
    if j >= n {
      ShapeHoldsNoSign(atoms[1..], s[n..], j - n);
    } else if atoms[0].Digits? {
      SpanHolds(s, Digit, j);
    }
  }

  lemma {:induction false} RunTailHoldsNoSign(s: string, j: nat)
    requires j < RunTail(s)
    ensures s[j] != '@'
  {
    var n := if At(s, 0, RunSep) && At(s, 1, RunSep) && At(s, 2, Digit) then 3
             else if At(s, 0, RunSep) && At(s, 1, Digit) then 2 else 1;
    if j >= n { RunTailHoldsNoSign(s[n..], j - n); }
  }

  lemma {:induction false} DateHoldsNoSign(s: string, j: nat)
    requires j < Date(s)
    ensures s[j] != '@'
  {
    if Shape(YEAR_FIRST, s).Some? {
      ShapeHoldsNoSign(YEAR_FIRST, s, j);
    } else {
      ShapeHoldsNoSign(YEAR_LAST, s, j);
    }
  }

  lemma {:induction false} TimeHoldsNoSign(s: string, j: nat)
    requires j < Time(s)
    ensures s[j] != '@'
  {
    var n := Shape(CLOCK, s).value;
    if j < n {
      ShapeHoldsNoSign(CLOCK, s, j);
    } else {
      ShapeHoldsNoSign(SECONDS, s[n..], j - n);
    }
  }

  lemma {:induction false} RunHoldsNoSign(s: string, j: nat)
    requires j < Run(s)
    ensures s[j] != '@'
  {
    var n := RunHead(s) + 1;
    if j >= n { RunTailHoldsNoSign(s[n..], j - n); }
  }

  lemma {:induction false} KeptHoldsNoSign(s: string, j: nat)
    requires s != "" && Next(s).Keep? && j < Next(s).n
    ensures s[j] != '@'
  {
    hide Run, Date, Time, Email;
    if Date(s) > 0 {
      DateHoldsNoSign(s, j);
    } else if Time(s) > 0 {
      TimeHoldsNoSign(s, j);
    } else {
      RunHoldsNoSign(s, j);
    }
  }

  // ----- when an email is left ------------------------------------------------------------

  /** Some email begins in `t`. */
  ghost predicate HoldsEmail(t: string) { exists p: nat :: p < |t| && Email(t[p..]) > 0 }

  /** The match at the front is kept, ends with a character of a local part and is followed by a
      sign and, up to the next replaced match, a domain. */
  predicate LeaksHere(s: string)
    requires s != ""
  {
    var p := Next(s);
    && p.Keep? && At(s, p.n - 1, Local) && Has(s, p.n, '@')
    && Domain(Untouched(s[p.n + 1..])) > 0
  }

  predicate Leaks(s: string)
    decreases |s|
  {
    s != "" && (LeaksHere(s) || Leaks(s[Next(s).Length()..]))
  }

  lemma {:induction false} HoldsInParts(a: string, b: string)
    requires forall p: nat | p < |a| :: Email((a + b)[p..]) == 0
    ensures HoldsEmail(a + b) <==> HoldsEmail(b)
  {
    forall p: nat | p <= |b|
      ensures (a + b)[|a| + p..] == b[p..]
    {}
    if HoldsEmail(a + b) {
      var p: nat :| p < |a + b| && Email((a + b)[p..]) > 0;
      assert p >= |a|;
      assert (a + b)[|a| + (p - |a|)..] == b[p - |a|..];
    }
    if HoldsEmail(b) {
      var p: nat :| p < |b| && Email(b[p..]) > 0;
      assert (a + b)[|a| + p..] == b[p..];
      assert |a| + p < |a + b|;
    }
  }

  /** No email begins in a token. */
  lemma {:induction false} TokenBeginsNoEmail(t: Token, rest: string, p: nat)
    requires p < |Rendered(t)|
    ensures Email((Rendered(t) + rest)[p..]) == 0
  {
    var tok := Rendered(t);
    RenderedIsToken(t);
    assert (tok + rest)[p..] == tok[p..] + rest;
    assert forall i | 0 <= i < |tok| - p :: tok[p..][i] == tok[p + i];
    NoEmailInToken(tok[p..], rest);
  }

  lemma {:induction false} TokenStartsWithABracket(t: Token)
    ensures Rendered(t)[0] == '['
  {}

  /** Redacted text begins with an email only if the source does, and then not where the source
      has no digit in front. */
  lemma {:induction false} NoEmailInFront(s: string)
    requires s != "" ==> !IsDigit(s[0])
    ensures Email(Redact(s).text) == 0
  {
    hide Date, Time, Run, RunKind, PlausibleDate, PlausibleTime, Redact, Email;
    if Email(Redact(s).text) > 0 {
      RedactionCuts(s);
      CutEmail(s, Redact(s).text, FirstSwap(s));
      NothingIsNoEmail();
      NoDateBeforeADigit(s);
      EmailsGoExactlyWhenFirst(s);
      TokenStartsWithABracket(Mail);
      RedactsPieceByPiece(s);
      BracketIsNoEmail(Redact(s).text);
    }
  }

  lemma {:induction false} NothingIsNoEmail()
    ensures Email("") == 0
  {}

  lemma {:induction false} BracketIsNoEmail(t: string)
    requires t != "" && t[0] == '['
    ensures Email(t) == 0
  {}

  lemma {:induction false} NoDateBeforeADigit(s: string)
    requires s != "" && !IsDigit(s[0])
    ensures Date(s) == 0 && Time(s) == 0
  {
    assert YEAR_FIRST[0] == Digits(4, 4) && YEAR_LAST[0] == Digits(1, 2) && CLOCK[0] == Digits(1, 2);
  }

  /** A character that is passed over begins no email in the redacted text. */
  lemma {:induction false} GapBeginsNoEmail(s: string)
    requires s != "" && Next(s).Gap?
    ensures Email(Redact(s).text) == 0
  {
    hide Redact, Email;
    PiecesEndClean(s);
    NoEmailInFront(s);
  }

  /** The sign behind a kept match is passed over. */
  lemma {:induction false} SignIsPassedOver(s: string)
    requires s != "" && s[0] == '@'
    ensures Redact(s).text == "@" + Redact(s[1..]).text
  {
    assert Email(s) == 0;
    NoMatchWithoutDigit(s);
    RedactsPieceByPiece(s);
    assert s[..1] == "@";
  }

  lemma {:induction false} EmailFrom(t: string, p: nat, n: nat)
    requires p < n < |t| && t[n] == '@'
    requires forall j | p <= j < n :: In(t[j], Local)
    ensures Span(t[p..], Local) == n - p
    ensures Email(t[p..]) > 0 <==> Domain(t[n + 1..]) > 0
  {
    LocalUpTo(t[p..], n - p);
    assert t[p..][n - p] == '@' && t[p..][n - p + 1..] == t[n + 1..];
  }

  lemma {:induction false} LocalUpTo(t: string, n: nat)
    requires n < |t| && !In(t[n], Local) && forall j | 0 <= j < n :: In(t[j], Local)
    ensures Span(t, Local) == n
  {
    if n > 0 { LocalUpTo(t[1..], n - 1); }
  }

  /** Where an email's sign is. */
  lemma {:induction false} SignOfEmail(t: string, p: nat) returns (n: nat)
    requires p < |t| && Email(t[p..]) > 0
    ensures p < n < |t| && t[n] == '@' && Domain(t[n + 1..]) > 0
    ensures forall j | p <= j < n :: In(t[j], Local)
  {
    hide Span, Domain;
    n := p + Span(t[p..], Local);
    SpanIsMaximal(t[p..], Local, n - p);
    assert t[p..][n - p + 1..] == t[n + 1..];
    forall j | p <= j < n
      ensures In(t[j], Local)
    {
      SpanHolds(t[p..], Local, j - p);
    }
  }

  /** An email that begins in a kept match has its sign directly behind it. */
  lemma {:induction false} SignIsBehindTheMatch(s: string, p: nat)
    requires s != "" && Next(s).Keep? && p < Next(s).n && Email(Redact(s).text[p..]) > 0
    ensures LeaksHere(s)
  {
    hide Next, Redact, Email, Untouched, Domain;
    var n, text := Next(s).n, Redact(s).text;
    var rest := Redact(s[n..]).text;
    RedactsPieceByPiece(s);
    assert text == s[..n] + rest && text[n..] == rest;
    var sign := SignOfEmail(text, p);
    PiecesEndClean(s);
    if sign < n {
      KeptHoldsNoSign(s, sign);
    } else if sign > n {
      EmailFrom(text, n, sign);
      NoEmailInFront(s[n..]);
    }
    assert sign == n && rest[0] == '@';
    FrontSurvives(s[n..]);
    SignIsPassedOver(s[n..]);
    assert s[n..][1..] == s[n + 1..] && text[n + 1..] == rest[1..] == Redact(s[n + 1..]).text;
    DomainIsUntouched(s[n + 1..]);
    assert text[n - 1] == s[n - 1];
  }

  /** A character in front of redacted text that is no bracket was there before. */
  lemma {:induction false} FrontSurvives(s: string)
    requires Redact(s).text != "" && Redact(s).text[0] != '['
    ensures s != "" && s[0] == Redact(s).text[0]
  {
    RedactionCuts(s);
    var t, i := Redact(s).text, FirstSwap(s);
    if i > 0 {
      assert t[0] == t[..i][0] == s[..i][0] == s[0];
    }
  }

  lemma {:induction false} LeakHoldsEmail(s: string)
    requires s != "" && LeaksHere(s)
    ensures HoldsEmail(Redact(s).text)
  {
    hide Next, Redact, Email, Untouched, Domain;
    var n, text := Next(s).n, Redact(s).text;
    RedactsPieceByPiece(s);
    SignIsPassedOver(s[n..]);
    var host := Redact(s[n + 1..]).text;
    assert s[n..][1..] == s[n + 1..];
    assert text == s[..n] + ("@" + host);
    assert text[n] == '@' && text[n + 1..] == host && text[n - 1] == s[n - 1];
    DomainIsUntouched(s[n + 1..]);
    EmailFrom(text, n - 1, n);
  }

  /** An email is left in the redacted text if and only if the source leaks: somewhere the scan
      keeps a match that ends with a character of a local part, and behind it come a sign and,
      before anything else that is replaced, a domain. */
  lemma {:induction false} EmailsSurviveExactlyWhenLeaked(s: string)
    ensures HoldsEmail(Redact(s).text) <==> Leaks(s)
    decreases |s|
  {
    hide Next, Redact, Email, LeaksHere;
    if s == "" {
      RedactNothing();
    } else {
      var n := Next(s).Length();
      var out, rest := Output(Next(s), s), Redact(s[n..]).text;
      EmailsSurviveExactlyWhenLeaked(s[n..]);
      RedactsPieceByPiece(s);
      if LeaksHere(s) {
        LeakHoldsEmail(s);
      } else {
        forall p: nat | p < |out|
          ensures Email((out + rest)[p..]) == 0
        {
          NothingBeginsInThePiece(s, p);
        }
        HoldsInParts(out, rest);
      }
    }
  }

  lemma {:induction false} RedactNothing()
    ensures Redact("").text == ""
  {}

  lemma {:induction false} NothingBeginsInThePiece(s: string, p: nat)
    requires s != "" && !LeaksHere(s) && p < |Output(Next(s), s)|
    ensures p < |Redact(s).text| && Email(Redact(s).text[p..]) == 0
  {
    hide Next, Redact, Email, LeaksHere, Rendered;
    RedactsPieceByPiece(s);
    match Next(s) {
      case Gap =>
        GapBeginsNoEmail(s);
        assert Redact(s).text[0..] == Redact(s).text;
      case Keep(n) =>
        if Email(Redact(s).text[p..]) > 0 {
          SignIsBehindTheMatch(s, p);
        }
      case Swap(n, t) => TokenBeginsNoEmail(t, Redact(s[n..]).text, p);
    }
  }

  // ----- where it begins ------------------------------------------------------------------

  /** Position `p` is in one piece. */
  lemma {:induction false} PieceAt(s: string, p: nat) returns (start: nat)
    requires p < |s|
    ensures start <= p < start + Next(s[start..]).Length() <= |s|
    ensures Item(s[start..start + Next(s[start..]).Length()], Next(s[start..])) in Items(s)
    decreases |s|
  {
    hide Next, Items;
    var n := Next(s).Length();
    ItemsStep(s);
    if p < n {
      start := 0;
      assert s[0..] == s;
    } else {
      var after := PieceAt(s[n..], p - n);
      start := n + after;
      var l := Next(s[n..][after..]).Length();
      SuffixOfSuffix(s, n, after, l);
      assert Item(s[start..start + l], Next(s[start..])) in Items(s[n..]);
    }
  }

  lemma {:induction false} SuffixOfSuffix(s: string, n: nat, m: nat, l: nat)
    requires n + m + l <= |s|
    ensures s[n..][m..] == s[n + m..] && s[n..][m..m + l] == s[n + m..n + m + l]
  {}

  /** An email that is left in redacted text begins inside a match that was kept, which is a
      possible date or time or a short run. */
  lemma {:induction false} SurvivingEmailsBeginInKeptMatches(s: string, p: nat) returns (start: nat, n: nat)
    requires p < |Redact(s).text| && Email(Redact(s).text[p..]) > 0
    ensures start <= p < start + n <= |Redact(s).text|
    ensures Next(Redact(s).text[start..]) == Keep(n) && Harmless(Redact(s).text[start..start + n])
  {
    hide Next, Email, Redact, Items, Harmless;
    var text := Redact(s).text;
    start := PieceAt(text, p);
    n := Next(text[start..]).Length();
    var i :| 0 <= i < |Items(text)| && Items(text)[i] == Item(text[start..start + n], Next(text[start..]));
    ResidueIsHarmless(s, i);
    if Next(text[start..]).Gap? {
      GapIsNoEmail(text[start..]);
    }
  }

  lemma {:induction false} GapIsNoEmail(s: string)
    requires s != "" && Next(s).Gap?
    ensures Email(s) == 0
  {}

  // ----- one that stays -------------------------------------------------------------------

  lemma {:induction false} NoSignNoEmail(s: string)
    requires forall i | 0 <= i < |s| :: Inert(s[i])
    ensures Email(s) == 0 && Redact(s) == Redacted(s, 0, 0, 0)
  {
    if s != "" {
      NoMatchWithoutDigit(s);
      NoSignNoEmail(s[1..]);
      assert s == s[..1] + s[1..];
      KeepsFirstPiece(s[..1], s[1..]);
    }
  }

  lemma {:induction false} NoDateNoTime(s: string)
    requires |s| >= 2 && Span(s, Digit) == 1 && s[1] == ' '
    ensures Date(s) == 0 && Time(s) == 0
  {
    assert s[1..][0] == ' ';
    assert YEAR_FIRST[0] == Digits(4, 4) && YEAR_LAST[0] == Digits(1, 2) && CLOCK[0] == Digits(1, 2);
    assert YEAR_LAST[1..][0] == One(DateSep) && CLOCK[1..][0] == One(Colon);
    assert Shape(YEAR_LAST[1..], s[1..]).None? && Shape(CLOCK[1..], s[1..]).None?;
  }

  lemma {:induction false} TwoDigitRun(s: string)
    requires |s| >= 4 && IsDigit(s[0]) && s[1] == ' ' && IsDigit(s[2]) && !IsDigit(s[3]) && !In(s[3], RunSep)
    ensures Run(s) == 3
  {
    var tail := s[1..];
    assert tail[0] == ' ' && tail[1] == s[2] && tail[2..][0] == s[3];
    assert RunTail(tail[2..]) == 0;
    assert RunTail(tail) == 2;
  }

  lemma {:induction false} ShortRunIsKept(s: string)
    requires |s| >= 4 && IsDigit(s[0]) && s[1] == ' ' && IsDigit(s[2]) && !IsDigit(s[3]) && !In(s[3], RunSep)
    requires Span(s, Digit) == 1 && Email(s) == 0
    ensures Next(s) == Keep(3)
  {
    hide Date, Time, Email, Run;
    NoDateNoTime(s);
    TwoDigitRun(s);
    FewDigits(s[..3]);
  }

  lemma {:induction false} FewDigits(s: string)
    ensures DigitCount(s) <= |s|
  {
    if s != "" { FewDigits(s[1..]); }
  }

  lemma {:induction false} SignAndHostStay(host: string)
    requires forall i | 0 <= i < |host| :: Inert(host[i])
    ensures Redact("@" + host) == Redacted("@" + host, 0, 0, 0)
  {
    var s := "@" + host;
    NoSignNoEmail(host);
    assert Span(s, Local) == 0;
    NoMatchWithoutDigit(s);
    KeepsFirstPiece("@", host);
  }

  lemma {:induction false} BehindTheRun(s: string, host: string)
    requires |s| == 3 && IsDigit(s[0]) && s[1] == ' ' && IsDigit(s[2])
    requires forall i | 0 <= i < |host| :: Inert(host[i])
    ensures Redact(s + ("@" + host)) == Redacted(s + ("@" + host), 0, 0, 0)
  {
    var text := s + ("@" + host);
    assert text[1..][0] == ' ' && text[3] == '@';
    assert Span(text, Digit) == 1 && Span(text, Local) <= 1;
    NoEmailBeforeASpace(text);
    ShortRunIsKept(text);
    hide Next, Redact, Span, Email;
    SignAndHostStay(host);
    KeepsFirstPiece(s, "@" + host);
  }

  lemma {:induction false} NoEmailBeforeASpace(text: string)
    requires |text| >= 2 && text[1] == ' ' && text[0] != '@' && Span(text, Local) <= 1
    ensures Email(text) == 0
  {}

  lemma {:induction false} EmailOfTheHost()
    ensures Email("2@b.co") == 6
  {
    assert "2@b.co"[1..] == "@b.co" && "2@b.co"[2..] == "b.co";
    LastLabels();
    assert "2@b.co" == "2" + ("@" + "b.co");
    hide Domain, Span;
  }

  /** Such a text exists: nothing of it is replaced. */
  lemma {:induction false} AnEmailInAKeptRunStays()
    ensures Redact("1 2@b.co") == Redacted("1 2@b.co", 0, 0, 0)
    ensures Email("1 2@b.co"[2..]) == 6
  {
    hide Redact, Email;
    BehindTheRun("1 2", "b.co");
    assert "1 2@b.co" == "1 2" + ("@" + "b.co");
    EmailOfTheHost();
    assert "1 2@b.co"[2..] == "2@b.co";
  }

  lemma {:induction false} LastLabels()
    ensures Span("2" + ("@" + "b.co"), Local) == 1 && Domain("b.co") == 4
  {
    assert ("2" + ("@" + "b.co"))[1..] == "@b.co";
    assert "2@b.co"[1..] == "@b.co" && "b.co"[1..] == ".co" && ".co"[1..] == "co" && "co"[1..] == "o" && "o"[1..] == "";
    assert Span("o", Label) == 1 && Span("o", Letter) == 1;
    assert Span("co", Label) == 2 && Span("co", Letter) == 2;
    assert Span("b.co", Label) == 1;
    assert ".co"[3..] == "" && DomainTail("") == 0;
    assert DomainTail(".co") == 3;
  }
}
