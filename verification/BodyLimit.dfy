/** The middleware that refuses a request body over the cap, wrapped around an arbitrary inner
    application: one that may swallow the refusal, read on, answer, or raise. */
module BodyLimit {
  import opened Options

  // ----- the declared length --------------------------------------------------------------

  const CONTENT_LENGTH: string := "content-length"

  predicate IsDigit(c: char) { '0' <= c <= '9' }

  predicate IsSpace(c: char) { c == ' ' || '\t' <= c <= '\r' }

  function TrimLeft(s: string): string {
    if s != "" && IsSpace(s[0]) then TrimLeft(s[1..]) else s
  }

  function TrimRight(s: string): string {
    if s != "" && IsSpace(s[|s| - 1]) then TrimRight(s[..|s| - 1]) else s
  }

  /** Digits, with single underscores between them. */
  predicate IsNumeral(s: string) {
    && s != "" && IsDigit(s[0]) && IsDigit(s[|s| - 1])
    && forall i | 0 < i < |s| - 1 :: IsDigit(s[i]) || (s[i] == '_' && IsDigit(s[i + 1]))
  }

  function Value(s: string): nat {
    if s == "" then 0
    else
      var last := s[|s| - 1];
      var front := Value(s[..|s| - 1]);
      if IsDigit(last) then 10 * front + (last as int - '0' as int) else front
  }

  function OnlyDigits(s: string): string {
    if s == "" then ""
    else OnlyDigits(s[..|s| - 1]) + if IsDigit(s[|s| - 1]) then [s[|s| - 1]] else ""
  }

  /** The language reads no integer of more digits. */
  const MAX_DIGITS: nat := 4300

  /** The language's own reading of an integer: spaces around it, a sign, underscores. */
  function ParseInt(value: string): Option<int> {
    var s := TrimRight(TrimLeft(value));
    var signed := s != "" && (s[0] == '-' || s[0] == '+');
    var digits := if signed then s[1..] else s;
    if !IsNumeral(digits) || |OnlyDigits(digits)| > MAX_DIGITS then None
    else Some(if signed && s[0] == '-' then 0 - Value(digits) else Value(digits) as int)
  }

  datatype Header = Header(name: string, value: string)

  /** What one header claims; a claim below zero is no claim. */
  function Claim(h: Header): Option<int> {
    var declared := ParseInt(h.value);
    if declared.Some? && declared.value < 0 then None else declared
  }

  function FirstClaim(hs: seq<Header>): Option<int> {
    if hs == [] then None
    else if hs[0].name == CONTENT_LENGTH then Claim(hs[0])
    else FirstClaim(hs[1..])
  }

  method DeclaredLength(headers: seq<Header>) returns (declared: Option<int>)
    ensures declared == FirstClaim(headers)
  {
    for i := 0 to |headers|
      invariant FirstClaim(headers) == FirstClaim(headers[i..])
    {
      if headers[i].name == CONTENT_LENGTH {
        var value := ParseInt(headers[i].value);
        if value.None? {
          return None;
        }
        return if value.value >= 0 then value else None;
      }
    }
    return None;
  }

  /** The first content-length decides, whatever follows it. */
  lemma {:induction false} FirstContentLengthDecides(hs: seq<Header>, k: nat)
    requires k < |hs| && hs[k].name == CONTENT_LENGTH
    requires forall i | 0 <= i < k :: hs[i].name != CONTENT_LENGTH
    ensures FirstClaim(hs) == Claim(hs[k])
  {
    if k > 0 {
      assert hs[1..][k - 1] == hs[k];
      FirstContentLengthDecides(hs[1..], k - 1);
    }
  }

  function Decimal(n: nat): string {
    var last := ('0' as int + n % 10) as char;
    if n < 10 then [last] else Decimal(n / 10) + [last]
  }

  lemma {:induction false} DecimalReadsBack(n: nat)
    ensures IsNumeral(Decimal(n)) && Value(Decimal(n)) == n
    ensures forall i | 0 <= i < |Decimal(n)| :: IsDigit(Decimal(n)[i])
  {
    var s := Decimal(n);
    if n >= 10 {
      DecimalReadsBack(n / 10);
      assert s[..|s| - 1] == Decimal(n / 10);
    } else {
      assert s[..0] == "";
    }
  }

  lemma {:induction false} NothingToTrim(s: string)
    requires s != "" && !IsSpace(s[0]) && !IsSpace(s[|s| - 1])
    ensures TrimRight(TrimLeft(s)) == s
  {}

  lemma {:induction false} AllDigits(s: string)
    requires forall i | 0 <= i < |s| :: IsDigit(s[i])
    ensures OnlyDigits(s) == s
  {
    if s != "" { AllDigits(s[..|s| - 1]); }
  }

  /** A plain decimal is read as its value, if it is not too long to be read at all, and one with
      a minus sign is no claim. */
  lemma {:induction false} PlainLengthsAreRead(n: nat)
    ensures Claim(Header(CONTENT_LENGTH, Decimal(n))) == if |Decimal(n)| <= MAX_DIGITS then Some(n) else None
    ensures n > 0 ==> Claim(Header(CONTENT_LENGTH, "-" + Decimal(n))) == None
  {
    hide TrimLeft, TrimRight, Decimal, Value, IsNumeral, OnlyDigits;
    DecimalReadsBack(n);
    var s := Decimal(n);
    AllDigits(s);
    assert s != "" by { NumeralsAreNotEmpty(s); }
    NothingToTrim(s);
    var negative := "-" + s;
    assert negative[0] == '-' && negative[|negative| - 1] == s[|s| - 1] && negative[1..] == s;
    NothingToTrim(negative);
  }

  lemma {:induction false} NumeralsAreNotEmpty(s: string)
    requires IsNumeral(s)
    ensures s != ""
  {}

  predicate InNumber(c: char) { IsDigit(c) || IsSpace(c) || c == '_' || c == '-' || c == '+' }

  lemma {:induction false} TrimmingKeeps(s: string, c: char)
    requires c in s && !IsSpace(c)
    ensures c in TrimLeft(s) && c in TrimRight(s)
  {
    LeftKeeps(s, c);
    RightKeeps(s, c);
  }

  lemma {:induction false} LeftKeeps(s: string, c: char)
    requires c in s && !IsSpace(c)
    ensures c in TrimLeft(s)
  {
    if IsSpace(s[0]) { LeftKeeps(s[1..], c); }
  }

  lemma {:induction false} RightKeeps(s: string, c: char)
    requires c in s && !IsSpace(c)
    ensures c in TrimRight(s)
  {
    if IsSpace(s[|s| - 1]) { RightKeeps(s[..|s| - 1], c); }
  }

  /** Two folded lengths, or any other stray character, are no claim. */
  lemma {:induction false} JunkIsNoClaim(h: Header, c: char)
    requires c in h.value && !InNumber(c)
    ensures Claim(h) == None
  {
    TrimmingKeeps(h.value, c);
    TrimmingKeeps(TrimLeft(h.value), c);
    var s := TrimRight(TrimLeft(h.value));
    var i :| 0 <= i < |s| && s[i] == c;
    if s[0] == '-' || s[0] == '+' {
      assert s[1..][i - 1] == c;
    }
  }

  // ----- exactly what is a claim ----------------------------------------------------------

  function Joined(groups: seq<string>): string {
    if groups == [] then ""
    else if |groups| == 1 then groups[0]
    else groups[0] + "_" + Joined(groups[1..])
  }

  function Flat(groups: seq<string>): string {
    if groups == [] then "" else groups[0] + Flat(groups[1..])
  }

  ghost predicate AllSpace(s: string) { forall i | 0 <= i < |s| :: IsSpace(s[i]) }

  ghost predicate DigitGroup(g: string) { g != "" && forall i | 0 <= i < |g| :: IsDigit(g[i]) }

  /** White space, an optional sign, groups of digits with one underscore between two, white
      space; and no more digits than the language reads. */
  ghost predicate Spelled(value: string, lead: string, sign: string, groups: seq<string>, trail: string) {
    && value == lead + sign + Joined(groups) + trail
    && AllSpace(lead) && AllSpace(trail)
    && (sign == "" || sign == "+" || sign == "-")
    && groups != [] && (forall g | g in groups :: DigitGroup(g))
    && |Flat(groups)| <= MAX_DIGITS
  }

  function Named(sign: string, groups: seq<string>): int {
    if sign == "-" then 0 - Value(Flat(groups)) else Value(Flat(groups))
  }

  lemma {:induction false} TrimLeftSplits(s: string) returns (lead: string)
    ensures s == lead + TrimLeft(s) && AllSpace(lead)
  {
    if s != "" && IsSpace(s[0]) {
      var rest := TrimLeftSplits(s[1..]);
      lead := [s[0]] + rest;
      assert s == [s[0]] + s[1..];
    } else {
      lead := "";
    }
  }

  lemma {:induction false} TrimRightSplits(s: string) returns (trail: string)
    ensures s == TrimRight(s) + trail && AllSpace(trail)
  {
    if s != "" && IsSpace(s[|s| - 1]) {
      var rest := TrimRightSplits(s[..|s| - 1]);
      trail := rest + [s[|s| - 1]];
      assert s == s[..|s| - 1] + [s[|s| - 1]];
    } else {
      trail := "";
    }
  }

  lemma {:induction false} LeadIsTrimmed(lead: string, s: string)
    requires AllSpace(lead) && s != "" && !IsSpace(s[0])
    ensures TrimLeft(lead + s) == s
  {
    if lead == "" {
      assert lead + s == s;
    } else {
      LeadIsTrimmed(lead[1..], s);
      assert (lead + s)[1..] == lead[1..] + s;
    }
  }

  lemma {:induction false} TrailIsTrimmed(s: string, trail: string)
    requires AllSpace(trail) && s != "" && !IsSpace(s[|s| - 1])
    ensures TrimRight(s + trail) == s
  {
    if trail == "" {
      assert s + trail == s;
    } else {
      TrailIsTrimmed(s, trail[..|trail| - 1]);
      assert (s + trail)[..|s + trail| - 1] == s + trail[..|trail| - 1];
    }
  }

  lemma {:induction false} OnlyDigitsOfSum(a: string, b: string)
    ensures OnlyDigits(a + b) == OnlyDigits(a) + OnlyDigits(b)
  {
    if b == "" {
      assert a + b == a;
    } else {
      OnlyDigitsOfSum(a, b[..|b| - 1]);
      assert (a + b)[..|a + b| - 1] == a + b[..|b| - 1];
    }
  }

  lemma {:induction false} ValueIsOfTheDigits(s: string)
    ensures Value(OnlyDigits(s)) == Value(s)
  {
    if s != "" {
      var front, last := s[..|s| - 1], s[|s| - 1];
      ValueIsOfTheDigits(front);
      if IsDigit(last) {
        assert OnlyDigits(s)[..|OnlyDigits(s)| - 1] == OnlyDigits(front);
      } else {
        assert OnlyDigits(s) == OnlyDigits(front);
      }
    }
  }

  lemma {:induction false} GroupIsNumeral(g: string)
    requires DigitGroup(g)
    ensures IsNumeral(g)
  {}

  /** Groups joined are a numeral of the flat digits. */
  lemma {:induction false} JoinedIsNumeral(groups: seq<string>)
    requires groups != [] && forall g | g in groups :: DigitGroup(g)
    ensures IsNumeral(Joined(groups)) && OnlyDigits(Joined(groups)) == Flat(groups)
  {
    hide IsNumeral;
    var g := groups[0];
    assert g in groups;
    AllDigits(g);
    if |groups| == 1 {
      GroupIsNumeral(g);
      assert Flat(groups) == g + Flat(groups[1..]) == g;
    } else {
      var rest := Joined(groups[1..]);
      JoinedIsNumeral(groups[1..]);
      OnlyDigitsOfSum(g + "_", rest);
      OnlyDigitsOfSum(g, "_");
      assert OnlyDigits("_") == "" by { assert "_"[..0] == ""; }
      JoinsNumeral(g, rest);
    }
  }

  lemma {:induction false} JoinsNumeral(g: string, rest: string)
    requires DigitGroup(g) && IsNumeral(rest)
    ensures IsNumeral(g + "_" + rest)
  {
    var s := g + "_" + rest;
    forall i | 0 < i < |s| - 1
      ensures IsDigit(s[i]) || (s[i] == '_' && IsDigit(s[i + 1]))
    {
      if i > |g| {
        assert s[i] == rest[i - |g| - 1] && s[i + 1] == rest[i - |g|];
      } else if i == |g| {
        assert s[i + 1] == rest[0];
      }
    }
  }

  lemma {:induction false} NumeralIsJoined(s: string) returns (groups: seq<string>)
    requires IsNumeral(s)
    ensures groups != [] && (forall g | g in groups :: DigitGroup(g)) && s == Joined(groups)
  {
    if |s| == 1 {
      groups := [s];
    } else if IsDigit(s[1]) {
      var rest := NumeralIsJoined(s[1..]);
      groups := [s[..1] + rest[0]] + rest[1..];
      assert rest[0] in rest && forall g | g in rest[1..] :: g in rest;
      assert groups[1..] == rest[1..];
      assert s == s[..1] + s[1..];
    } else {
      var rest := NumeralIsJoined(s[2..]);
      groups := [s[..1]] + rest;
      assert groups[1..] == rest;
      assert s == s[..1] + "_" + s[2..];
    }
  }

  lemma {:induction false} BothEndsTrimmed(lead: string, s: string, trail: string)
    requires AllSpace(lead) && AllSpace(trail) && s != "" && !IsSpace(s[0]) && !IsSpace(s[|s| - 1])
    ensures TrimRight(TrimLeft(lead + s + trail)) == s
  {
    hide TrimLeft, TrimRight, AllSpace;
    assert lead + s + trail == lead + (s + trail);
    assert (s + trail)[0] == s[0];
    LeadIsTrimmed(lead, s + trail);
    TrailIsTrimmed(s, trail);
  }

  lemma {:induction false} SpelledIsRead(value: string, lead: string, sign: string, groups: seq<string>, trail: string)
    requires Spelled(value, lead, sign, groups, trail)
    ensures ParseInt(value) == Some(Named(sign, groups))
  {
    hide TrimLeft, TrimRight, OnlyDigits, Value, Joined, Flat, AllSpace, DigitGroup;
    var digits := Joined(groups);
    JoinedIsNumeral(groups);
    ValueIsOfTheDigits(digits);
    var s := sign + digits;
    assert s[0] == (if sign == "" then digits[0] else sign[0]) && s[|s| - 1] == digits[|digits| - 1];
    assert value == lead + s + trail;
    BothEndsTrimmed(lead, s, trail);
    assert sign != "" ==> s[1..] == digits;
    assert sign == "" ==> s == digits;
  }

  lemma {:induction false} ReadIsSpelled(value: string)
    returns (lead: string, sign: string, groups: seq<string>, trail: string)
    requires ParseInt(value).Some?
    ensures Spelled(value, lead, sign, groups, trail)
  {
    hide TrimLeft, TrimRight, OnlyDigits, Value, IsNumeral, Joined, Flat;
    lead := TrimLeftSplits(value);
    trail := TrimRightSplits(TrimLeft(value));
    var s := TrimRight(TrimLeft(value));
    var signed := s != "" && (s[0] == '-' || s[0] == '+');
    sign := if signed then s[..1] else "";
    var digits := if signed then s[1..] else s;
    assert s == sign + digits;
    groups := NumeralIsJoined(digits);
    JoinedIsNumeral(groups);
    assert value == lead + sign + Joined(groups) + trail;
  }

  /** A header claims `v` if and only if its value spells `v` and `v` is not negative. */
  lemma {:induction false} ClaimsExactlyWhatIsSpelled(h: Header, v: int)
    ensures (Claim(h) == Some(v)
             <==> v >= 0 && exists lead, sign, groups, trail ::
                    Spelled(h.value, lead, sign, groups, trail) && v == Named(sign, groups))
  {
    hide ParseInt, Spelled, Named;
    if Claim(h) == Some(v) {
      var lead, sign, groups, trail := ReadIsSpelled(h.value);
      SpelledIsRead(h.value, lead, sign, groups, trail);
    }
    if v >= 0 && exists lead, sign, groups, trail ::
        Spelled(h.value, lead, sign, groups, trail) && v == Named(sign, groups) {
      var lead, sign, groups, trail :| Spelled(h.value, lead, sign, groups, trail) && v == Named(sign, groups);
      SpelledIsRead(h.value, lead, sign, groups, trail);
    }
  }

  /** White space is that of byte strings. */
  lemma {:induction false} SpacesAreTheWhiteSpace(c: char)
    ensures IsSpace(c) <==> c in " \t\n\U{000B}\U{000C}\r"
  {}

  /** So something that is not a plain integer can be a claim. */
  lemma {:induction false} SpacesSignsAndUnderscoresAreRead()
    ensures Claim(Header(CONTENT_LENGTH, " +1_2 ")) == Some(12)
  {
    assert Joined(["1", "2"]) == "1_2" by { assert ["1", "2"][1..] == ["2"]; }
    assert Flat(["1", "2"]) == "12" by {
      assert ["1", "2"][1..] == ["2"] && ["2"][1..] == [];
      assert Flat(["2"]) == "2" + Flat([]) == "2";
    }
    assert Value("12") == 12 by { assert "12"[..1] == "1" && "1"[..0] == ""; }
    assert Spelled(" +1_2 ", " ", "+", ["1", "2"], " ");
    SpelledIsRead(" +1_2 ", " ", "+", ["1", "2"], " ");
  }

  // ----- the wrapped receive and send -----------------------------------------------------

  datatype Incoming = Request(body: string) | Disconnect

  datatype Outgoing = Start(status: nat) | Body(bytes: string) | Extension(name: string)

  const PAYLOAD_TOO_LARGE: string := "payload_too_large"

  const REFUSAL: seq<Outgoing> := [Start(413), Body(PAYLOAD_TOO_LARGE)]

  /** What the inner application does next; the message of a receive is what the wire hands
      over.  Nothing says it stops after a refusal. */
  datatype Action = Receive(message: Incoming) | Send(message': Outgoing)

  /** How the inner application ends. */
  datatype Ending = Returns | RaisesTooLarge | RaisesOther

  /** The state of one request: `out` is what reached the client and `delivered` the bytes that
      reached the application. */
  datatype State = State(received: nat, refused: bool, started: bool, delivered: nat, out: seq<Outgoing>)

  const FRESH: State := State(0, false, false, 0, [])

  function Bytes(m: Incoming): nat { if m.Request? then |m.body| else 0 }

  function AfterReceive(cap: nat, s: State, m: Incoming): State {
    var received := s.received + Bytes(m);
    if m.Request? && received > cap then s.(received := received, refused := true)
    else s.(received := received, delivered := s.delivered + Bytes(m))
  }

  function AfterSend(s: State, m: Outgoing): State {
    if s.refused && !s.started then s
    else s.(started := s.started || m.Start?, out := s.out + [m])
  }

  function After(cap: nat, actions: seq<Action>): State {
    if actions == [] then FRESH
    else
      var s := After(cap, actions[..|actions| - 1]);
      match actions[|actions| - 1]
      case Receive(m) => AfterReceive(cap, s, m)
      case Send(m) => AfterSend(s, m)
  }

  /** What one request looks like from outside. */
  datatype Exchange = Exchange(out: seq<Outgoing>, delivered: nat, receives: nat, propagates: bool)

  function Receives(actions: seq<Action>): nat {
    if actions == [] then 0
    else Receives(actions[..|actions| - 1]) + if actions[|actions| - 1].Receive? then 1 else 0
  }

  function Call(cap: nat, headers: seq<Header>, actions: seq<Action>, ending: Ending): Exchange {
    var declared := FirstClaim(headers);
    if declared.Some? && declared.value > cap then Exchange(REFUSAL, 0, 0, false)
    else
      var s := After(cap, actions);
      var refuse := s.refused && !s.started && !ending.RaisesOther?;
      Exchange(if refuse then s.out + REFUSAL else s.out, s.delivered, Receives(actions), ending.RaisesOther?)
  }

  /** The variables of one call, and the two wrappers over them. */
  class Guard {
    const cap: nat
    var received: nat
    var refused: bool
    var started: bool
    var delivered: nat
    var out: seq<Outgoing>

    function View(): State
      reads this
    {
      State(received, refused, started, delivered, out)
    }

    constructor (cap: nat)
      ensures this.cap == cap && View() == FRESH
    {
      this.cap := cap;
      received, refused, started, delivered, out := 0, false, false, 0, [];
    }

    /** Whether the message reached the application; otherwise the read raised. */
    method CountingReceive(m: Incoming) returns (reached: bool)
      modifies this
      ensures View() == AfterReceive(cap, old(View()), m)
      ensures reached <==> !(m.Request? && received > cap)
    {
      if m.Request? {
        received := received + |m.body|;
        if received > cap {
          refused := true;
          return false;
        }
        delivered := delivered + |m.body|;
      }
      return true;
    }

    method GuardedSend(m: Outgoing)
      modifies this
      ensures View() == AfterSend(old(View()), m)
    {
      if refused && !started {
        return;
      }
      if m.Start? {
        started := true;
      }
      out := out + [m];
    }
  }

  method Handle(cap: nat, headers: seq<Header>, actions: seq<Action>, ending: Ending) returns (e: Exchange)
    ensures e == Call(cap, headers, actions, ending)
  {
    var declared := DeclaredLength(headers);
    if declared.Some? && declared.value > cap {
      return Exchange(REFUSAL, 0, 0, false);
    }
    var guard := new Guard(cap);
    var receives := 0;
    for i := 0 to |actions|
      invariant fresh(guard) && guard.cap == cap
      invariant guard.View() == After(cap, actions[..i])
      invariant receives == Receives(actions[..i])
    {
      assert actions[..i + 1][..i] == actions[..i];
      match actions[i] {
        case Receive(m) =>
          var reached := guard.CountingReceive(m);
          receives := receives + 1;
        case Send(m) =>
          guard.GuardedSend(m);
      }
    }
    assert actions[..|actions|] == actions;
    if ending.RaisesOther? {
      return Exchange(guard.out, guard.delivered, receives, true);
    }
    if guard.refused && !guard.started {
      guard.out := guard.out + REFUSAL;
    }
    return Exchange(guard.out, guard.delivered, receives, false);
  }

  // ----- what the client and the application see -------------------------------------------

  /** The bytes the wire handed over. */
  function Handed(actions: seq<Action>): nat {
    if actions == [] then 0
    else
      var a := actions[|actions| - 1];
      Handed(actions[..|actions| - 1]) + if a.Receive? then Bytes(a.message) else 0
  }

  /** The answers the application gave, in order. */
  function Sent(actions: seq<Action>): seq<Outgoing> {
    if actions == [] then []
    else
      var a := actions[|actions| - 1];
      Sent(actions[..|actions| - 1]) + if a.Send? then [a.message'] else []
  }

  predicate NoStart(out: seq<Outgoing>) { forall i | 0 <= i < |out| :: !out[i].Start? }

  /** The body passed the cap by action `n`, and no response had been started. */
  ghost predicate OverflowsUnstarted(cap: nat, actions: seq<Action>, n: nat) {
    n <= |actions| && Handed(actions[..n]) > cap && NoStart(Sent(actions[..n]))
  }

  lemma {:induction false} StartsShow(out: seq<Outgoing>, m: Outgoing)
    ensures NoStart(out + [m]) <==> NoStart(out) && !m.Start?
  {
    assert (out + [m])[|out|] == m;
    assert forall i | 0 <= i < |out| :: (out + [m])[i] == out[i];
  }

  lemma {:induction false} StateIsAccounted(cap: nat, actions: seq<Action>)
    ensures var s := After(cap, actions);
      && s.received == Handed(actions)
      && (s.refused <==> s.received > cap)
      && s.delivered <= s.received && s.delivered <= cap
      && (!s.refused ==> s.delivered == s.received)
      && (s.started <==> !NoStart(s.out))
      && (s.started || !s.refused ==> s.out == Sent(actions))
  {
    if actions != [] {
      StateIsAccounted(cap, actions[..|actions| - 1]);
      var a := actions[|actions| - 1];
      if a.Send? {
        StartsShow(After(cap, actions[..|actions| - 1]).out, a.message');
      }
    }
  }

  lemma {:induction false} PrefixOfPrefix(actions: seq<Action>, n: nat)
    requires n < |actions|
    ensures actions[..|actions| - 1][..n] == actions[..n]
  {}

  lemma {:induction false} HandedGrows(actions: seq<Action>, n: nat)
    requires n <= |actions|
    ensures Handed(actions[..n]) <= Handed(actions)
    ensures Sent(actions[..n]) <= Sent(actions)
  {
    if n == |actions| {
      assert actions[..n] == actions;
    } else {
      PrefixOfPrefix(actions, n);
      HandedGrows(actions[..|actions| - 1], n);
    }
  }

  lemma {:induction false} StaysRefused(cap: nat, actions: seq<Action>, n: nat)
    requires n <= |actions|
    requires After(cap, actions[..n]).refused && !After(cap, actions[..n]).started
    ensures After(cap, actions).refused && !After(cap, actions).started
    ensures After(cap, actions).out == After(cap, actions[..n]).out
  {
    if n == |actions| {
      assert actions[..n] == actions;
    } else {
      PrefixOfPrefix(actions, n);
      StaysRefused(cap, actions[..|actions| - 1], n);
    }
  }

  /** An overflow before any response start refuses for good: what had been sent by then, and
      nothing later, has gone out. */
  lemma {:induction false} OverflowRefusesForGood(cap: nat, actions: seq<Action>, n: nat)
    requires OverflowsUnstarted(cap, actions, n)
    ensures var s := After(cap, actions); s.refused && !s.started && s.out <= Sent(actions[..n])
  {
    StateIsAccounted(cap, actions[..n]);
    OutIsSent(cap, actions[..n]);
    StaysRefused(cap, actions, n);
  }

  lemma {:induction false} OutIsSent(cap: nat, actions: seq<Action>)
    ensures After(cap, actions).out <= Sent(actions)
    ensures NoStart(Sent(actions)) ==> !After(cap, actions).started
  {
    StateIsAccounted(cap, actions);
    if actions != [] {
      var front := actions[..|actions| - 1];
      OutIsSent(cap, front);
      StateIsAccounted(cap, front);
    }
    var s := After(cap, actions);
    if s.started {
      assert exists i :: 0 <= i < |s.out| && s.out[i].Start?;
    }
  }

  /** The moment of the refusal. */
  lemma {:induction false} MomentOfRefusal(cap: nat, actions: seq<Action>) returns (n: nat)
    requires After(cap, actions).refused && !After(cap, actions).started
    ensures OverflowsUnstarted(cap, actions, n)
    ensures n > 0 && Handed(actions[..n - 1]) <= cap
    ensures After(cap, actions).out == Sent(actions[..n])
  {
    StateIsAccounted(cap, actions);
    var front := actions[..|actions| - 1];
    StateIsAccounted(cap, front);
    if After(cap, front).refused {
      n := MomentOfRefusal(cap, front);
      PrefixOfPrefix(actions, n);
      PrefixOfPrefix(actions, n - 1);
    } else {
      n := |actions|;
      assert actions[..n] == actions;
    }
  }

  // ----- the theorems ----------------------------------------------------------------------

  /** The application never gets more than the cap, whatever it does. */
  lemma {:induction false} DeliveredNeverExceedsTheCap(cap: nat, headers: seq<Header>, actions: seq<Action>,
                                        ending: Ending)
    ensures Call(cap, headers, actions, ending).delivered <= cap
  {
    StateIsAccounted(cap, actions);
  }

  /** A declared oversize is one 413 and not a single read. */
  lemma {:induction false} DeclaredOversizeIsRefusedUnread(cap: nat, headers: seq<Header>, actions: seq<Action>,
                                        ending: Ending)
    requires FirstClaim(headers).Some? && FirstClaim(headers).value > cap
    ensures Call(cap, headers, actions, ending) == Exchange(REFUSAL, 0, 0, false)
  {}

  ghost predicate Overflows(cap: nat, actions: seq<Action>) {
    exists n :: 0 <= n <= |actions| && OverflowsUnstarted(cap, actions, n)
  }

  /** A request is refused with no response started if and only if the body overflowed before any
      response start. */
  lemma {:induction false} RefusedExactlyOnOverflow(cap: nat, actions: seq<Action>)
    ensures After(cap, actions).refused && !After(cap, actions).started <==> Overflows(cap, actions)
  {
    if After(cap, actions).refused && !After(cap, actions).started {
      var n := MomentOfRefusal(cap, actions);
    }
    if Overflows(cap, actions) {
      var n :| 0 <= n <= |actions| && OverflowsUnstarted(cap, actions, n);
      OverflowRefusesForGood(cap, actions, n);
    }
  }

  /** A request that is let in: an overflow before any response start is answered by one 413
      after whatever had been sent by the overflow, unless the application raises something of
      its own; otherwise every message passes, unchanged and in order. */
  lemma {:induction false} AdmittedRequestsPassOrGetOne413(cap: nat, headers: seq<Header>, actions: seq<Action>,
                                        ending: Ending)
    requires var d := FirstClaim(headers); d.None? || d.value <= cap
    ensures var e := Call(cap, headers, actions, ending);
      && e.propagates == ending.RaisesOther?
      && (!Overflows(cap, actions) ==> e.out == Sent(actions))
      && (Overflows(cap, actions) ==> exists n ::
            0 < n <= |actions| && OverflowsUnstarted(cap, actions, n) && Handed(actions[..n - 1]) <= cap
            && e.out == Sent(actions[..n]) + if ending.RaisesOther? then [] else REFUSAL)
  {
    var s := After(cap, actions);
    StateIsAccounted(cap, actions);
    if s.refused && !s.started {
      var n := MomentOfRefusal(cap, actions);
      assert s.out + [] == s.out;
    } else {
      RefusedExactlyOnOverflow(cap, actions);
    }
  }

  /** The client sees the 413 and nothing else exactly when the application had sent nothing by
      the overflow: an application that opens with anything but a response start is not held
      back. */
  lemma {:induction false} OnlyThe413ExactlyWhenSilent(cap: nat, headers: seq<Header>, actions: seq<Action>,
                                        ending: Ending, n: nat)
    requires var d := FirstClaim(headers); d.None? || d.value <= cap
    requires 0 < n <= |actions| && OverflowsUnstarted(cap, actions, n) && Handed(actions[..n - 1]) <= cap
    requires !ending.RaisesOther?
    ensures Call(cap, headers, actions, ending).out == REFUSAL <==> Sent(actions[..n]) == []
  {
    var s := After(cap, actions);
    OverflowRefusesForGood(cap, actions, n);
    var k := MomentOfRefusal(cap, actions);
    SameMoment(cap, actions, k, n);
    assert |s.out + REFUSAL| == |s.out| + |REFUSAL|;
  }

  lemma {:induction false} SameMoment(cap: nat, actions: seq<Action>, k: nat, n: nat)
    requires 0 < k <= |actions| && Handed(actions[..k]) > cap && Handed(actions[..k - 1]) <= cap
    requires 0 < n <= |actions| && Handed(actions[..n]) > cap && Handed(actions[..n - 1]) <= cap
    ensures k == n
  {
    if k < n {
      assert actions[..n - 1][..k] == actions[..k];
      HandedGrows(actions[..n - 1], k);
    } else if n < k {
      assert actions[..k - 1][..n] == actions[..n];
      HandedGrows(actions[..k - 1], n);
    }
  }

  /** A request that is let in reads the wire exactly as often as the application asks, refused or
      not. */
  lemma {:induction false} EveryReadIsPassedOn(cap: nat, headers: seq<Header>, actions: seq<Action>, ending: Ending)
    requires var d := FirstClaim(headers); d.None? || d.value <= cap
    ensures Call(cap, headers, actions, ending).receives == |set i: nat | i < |actions| && actions[i].Receive?|
  {
    ReadsAreCounted(actions);
  }

  lemma {:induction false} ReadsAreCounted(actions: seq<Action>)
    ensures Receives(actions) == |set i: nat | i < |actions| && actions[i].Receive?|
  {
    var all := set i: nat | i < |actions| && actions[i].Receive?;
    if actions == [] {
      assert all == {};
    } else {
      var n := |actions| - 1;
      ReadsAreCounted(actions[..n]);
      var earlier := set i: nat | i < |actions[..n]| && actions[..n][i].Receive?;
      assert n !in earlier;
      assert all == earlier + (if actions[n].Receive? then {n} else {});
    }
  }

  /** A body of exactly the cap is let through; one byte more is not. */
  lemma {:induction false} TheCapIsTheLargestBody(cap: nat, actions: seq<Action>)
    ensures After(cap, actions).refused <==> Handed(actions) >= cap + 1
    ensures Handed(actions) <= cap ==> !Overflows(cap, actions) && After(cap, actions).delivered == Handed(actions)
  {
    StateIsAccounted(cap, actions);
    if Handed(actions) <= cap {
      forall n | 0 <= n <= |actions|
        ensures !OverflowsUnstarted(cap, actions, n)
      {
        HandedGrows(actions, n);
      }
    }
  }
}
