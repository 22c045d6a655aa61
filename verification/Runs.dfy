/** What the classes of the pattern hold, and which digit runs are kept. */
module Runs {
  import opened Options
  import opened Redaction
  import opened Dates

  // ----- the classes ----------------------------------------------------------------------

  const LETTERS := "abcdefghijklmnopqrstuvwxyz" + "ABCDEFGHIJKLMNOPQRSTUVWXYZ"

  function Members(k: Class): string {
    match k
    case Digit => WESTERN + ARABIC + EXTENDED
    case DateSep => "-/."
    case Colon => ":"
    case Local => LETTERS + WESTERN + "._%+-"
    case Label => LETTERS + WESTERN + "-"
    case Letter => LETTERS
    case RunSep => " .()-"
  }

  lemma {:induction false} LettersAre(c: char)
    ensures IsLetter(c) <==> c in LETTERS
  {}

  lemma {:induction false} DigitsAre(c: char)
    ensures IsDigit(c) <==> c in WESTERN + ARABIC + EXTENDED
    ensures '0' <= c <= '9' <==> c in WESTERN
  {}

  lemma {:induction false} ClassesHoldTheirMembers(c: char, k: Class)
    ensures In(c, k) <==> c in Members(k)
  {
    hide IsLetter, IsDigit, LETTERS;
    LettersAre(c);
    DigitsAre(c);
  }

  // ----- runs -----------------------------------------------------------------------------

  ghost function DigitPlaces(t: string): set<nat> { set i: nat | i < |t| && IsDigit(t[i]) }

  lemma {:induction false} CountIsOfPlaces(t: string)
    ensures DigitCount(t) == |DigitPlaces(t)|
  {
    if t == "" {
      assert DigitPlaces(t) == {};
    } else {
      var n := |t| - 1;
      CountIsOfPlaces(t[..n]);
      CountJoins(t[..n], [t[n]]);
      assert t[..n] + [t[n]] == t;
      assert DigitCount([t[n]]) == if IsDigit(t[n]) then 1 else 0 by { assert [t[n]][1..] == ""; }
      assert DigitPlaces(t) == DigitPlaces(t[..n]) + (if IsDigit(t[n]) then {n} else {});
    }
  }

  lemma {:induction false} TailEndsInADigit(s: string)
    ensures RunTail(s) > 0 ==> IsDigit(s[RunTail(s) - 1])
  {
    if At(s, 0, RunSep) && At(s, 1, RunSep) && At(s, 2, Digit) {
      TailEndsInADigit(s[3..]);
    } else if At(s, 0, RunSep) && At(s, 1, Digit) {
      TailEndsInADigit(s[2..]);
    } else if At(s, 0, Digit) {
      TailEndsInADigit(s[1..]);
    }
  }

  lemma {:induction false} RunEndsInADigit(s: string)
    requires Run(s) > 0
    ensures IsDigit(s[Run(s) - 1])
  {
    TailEndsInADigit(s[RunHead(s) + 1..]);
  }

  lemma {:induction false} SomeDigitSomeGroup(t: string, i: nat)
    requires i < |t| && IsDigit(t[i])
    ensures |Groups(t)| >= 1
  {
    if !IsDigit(t[0]) { SomeDigitSomeGroup(t[1..], i - 1); }
  }

  /** A text that begins and ends with a digit is one group exactly when it is all digits. */
  lemma {:induction false} OneGroupWhenAllDigits(t: string)
    requires t != "" && IsDigit(t[0]) && IsDigit(t[|t| - 1])
    ensures |Groups(t)| > 1 <==> exists i | 0 <= i < |t| :: !IsDigit(t[i])
  {
    var n := Span(t, Digit);
    SpanIsDigits(t);
    if n < |t| {
      assert t[n..][0] == t[n] && !IsDigit(t[n]);
      SomeDigitSomeGroup(t[n..], |t| - 1 - n);
    } else {
      assert t[..n] == t && t[n..] == "";
    }
  }

  lemma {:induction false} FormattedWhenNotAllDigits(s: string)
    requires Run(s) > 0
    ensures Formatted(s[..Run(s)]) <==> exists i | 0 <= i < Run(s) :: !IsDigit(s[i])
  {
    var run := s[..Run(s)];
    RunEndsInADigit(s);
    if IsDigit(s[0]) {
      OneGroupWhenAllDigits(run);
      assert forall i | 0 <= i < |run| :: run[i] == s[i];
    } else {
      assert Has(run, 0, '+') || Has(run, 0, '(');
    }
  }

  /** What becomes of a digit run, from its characters: eight digits or more without anything between
      or before them are an id, seven or more with something are a telephone number, and fewer are
      kept. */
  lemma {:induction false} RunsAreKeptExactlyWhenShort(s: string)
    requires Date(s) == 0 && Time(s) == 0 && Email(s) == 0 && Run(s) > 0
    ensures var n := Run(s);
      var digits := |set i: nat | i < n && IsDigit(s[i])|;
      Next(s) == if forall i | 0 <= i < n :: IsDigit(s[i]) then (if n >= 8 then Swap(n, Id) else Keep(n))
                 else if digits >= 7 then Swap(n, Phone) else Keep(n)
  {
    hide Run, Date, Time, Email, Groups, DigitCount, Formatted;
    var n := Run(s);
    var run := s[..n];
    FormattedWhenNotAllDigits(s);
    CountIsOfPlaces(run);
    assert DigitPlaces(run) == set i: nat | i < n && IsDigit(s[i]);
    if forall i | 0 <= i < n :: IsDigit(s[i]) {
      CountOfGroup(run, "");
      assert DigitCount("") == 0 by { NoDigitsInNothing(); }
      assert run + "" == run;
    }
  }

  lemma {:induction false} NoDigitsInNothing()
    ensures DigitCount("") == 0
  {}
}
