/** The structural bounds on a note, decided before anything is reserved or spent: too little,
    too much, or a short note that a tenant's tables recognise as a known outcome. */
module LengthGate {
  import opened Decide
  import opened Options

  /** A tenant's tables; a phrase is the words it splits into.  `digits` are the characters the
      language calls digits, whichever they are. */
  datatype Config = Config(
    codes: set<string>, phrases: set<seq<string>>, fillers: set<string>,
    minChars: nat, minTokens: nat, maxChars: nat, digits: set<char>)
  {
    predicate Valid() { minChars < maxChars }
  }

  /** The stripped text, and its case-folded form. */
  datatype Note = Note(text: string, folded: string)

  /** White space as the language splits on it. */
  predicate IsSpace(c: char) {
    || '\t' <= c <= '\r' || '\U{001C}' <= c <= '\U{0020}'
    || c == '\U{0085}' || c == '\U{00A0}' || c == '\U{1680}' || '\U{2000}' <= c <= '\U{200A}'
    || c == '\U{2028}' || c == '\U{2029}' || c == '\U{202F}' || c == '\U{205F}' || c == '\U{3000}'
  }

  predicate IsPunctuation(c: char) { c in ".,!?;:…،؛؟" }

  predicate IsDecimal(c: char) { '0' <= c <= '9' }

  function WordLength(s: string): (n: nat)
    ensures n <= |s|
  {
    if s == "" || IsSpace(s[0]) then 0 else 1 + WordLength(s[1..])
  }

  function Split(s: string): (words: seq<string>)
    ensures forall w | w in words :: w != ""
    decreases |s|
  {
    if s == "" then []
    else if IsSpace(s[0]) then Split(s[1..])
    else [s[..WordLength(s)]] + Split(s[WordLength(s)..])
  }

  function TrimmedPunctuation(w: string): string {
    if w != "" && IsPunctuation(w[|w| - 1]) then TrimmedPunctuation(w[..|w| - 1]) else w
  }

  function TrimmedDigits(w: string): string {
    if w != "" && IsDecimal(w[|w| - 1]) then TrimmedDigits(w[..|w| - 1]) else w
  }

  function Trimmed(words: seq<string>): (kept: seq<string>)
    ensures forall w | w in kept :: w != ""
  {
    if words == [] then []
    else
      var w := TrimmedPunctuation(words[0]);
      (if w != "" then [w] else []) + Trimmed(words[1..])
  }

  function Words(folded: string): seq<string> { Trimmed(Split(folded)) }

  predicate IsCode(w: string, c: Config) { TrimmedDigits(w) != "" && TrimmedDigits(w) in c.codes }

  predicate IsNumber(w: string, c: Config) { w != "" && forall i | 0 <= i < |w| :: w[i] in c.digits }

  predicate AllFillers(words: seq<string>, c: Config) { forall w | w in words :: w in c.fillers }

  /** The phrase opens the note and only fillers follow it. */
  predicate Opens(phrase: seq<string>, words: seq<string>, c: Config) {
    phrase <= words && AllFillers(words[|phrase|..], c)
  }

  predicate Recognised(words: seq<string>, c: Config) {
    && words != []
    && (|| (exists p | p in c.phrases :: Opens(p, words, c))
        || ((exists w | w in words :: IsCode(w, c))
            && forall w | w in words :: IsCode(w, c) || IsNumber(w, c) || w in c.fillers))
  }

  /** The test, as it runs: phrases in any order, the first that fits decides. */
  method IsRecognisedShortNote(folded: string, c: Config) returns (known: bool)
    ensures known == Recognised(Words(folded), c)
  {
    var words := Words(folded);
    if words == [] {
      return false;
    }
    var rest := c.phrases;
    while rest != {}
      invariant rest <= c.phrases
      invariant forall p | p in c.phrases - rest :: !Opens(p, words, c)
    {
      var phrase :| phrase in rest;
      if phrase <= words && AllFillers(words[|phrase|..], c) {
        assert Opens(phrase, words, c);
        return true;
      }
      rest := rest - {phrase};
    }
    var anyCode, allKnown := false, true;
    for i := 0 to |words|
      invariant anyCode <==> exists w | w in words[..i] :: IsCode(w, c)
      invariant allKnown <==> forall w | w in words[..i] :: IsCode(w, c) || IsNumber(w, c) || w in c.fillers
    {
      assert words[..i + 1] == words[..i] + [words[i]];
      anyCode := anyCode || IsCode(words[i], c);
      allKnown := allKnown && (IsCode(words[i], c) || IsNumber(words[i], c) || words[i] in c.fillers);
    }
    assert words[..|words|] == words;
    return anyCode && allKnown;
  }

  predicate BelowFloor(n: Note, c: Config) { |n.text| < c.minChars || |Split(n.text)| < c.minTokens }

  function Gate(n: Note, c: Config): Option<Detail> {
    if BelowFloor(n, c) then
      if Recognised(Words(n.folded), c) then None else Some(NoteTooShort)
    else if |n.text| > c.maxChars then Some(NoteTooLong)
    else None
  }

  // ----- words, codes and phrases ----------------------------------------------------------

  const WHITE_SPACE := "\t\n\U{000B}\U{000C}\r\U{001C}\U{001D}\U{001E}\U{001F} \U{0085}\U{00A0}\U{1680}"
    + "\U{2000}\U{2001}\U{2002}\U{2003}\U{2004}\U{2005}\U{2006}\U{2007}\U{2008}\U{2009}\U{200A}"
    + "\U{2028}\U{2029}\U{202F}\U{205F}\U{3000}"

  lemma {:induction false} SpacesAreTheWhiteSpace(c: char)
    ensures IsSpace(c) <==> c in WHITE_SPACE
  {}

  ghost predicate Blank(s: string) { forall i | 0 <= i < |s| :: s[i] in WHITE_SPACE }

  lemma {:induction false} WordEnds(w: string, gap: string, rest: string)
    requires w != "" && (forall i | 0 <= i < |w| :: !IsSpace(w[i])) && (gap + rest == "" || IsSpace((gap + rest)[0]))
    ensures WordLength(w + (gap + rest)) == |w|
  {
    assert (w + (gap + rest))[1..] == w[1..] + (gap + rest);
    if |w| > 1 {
      WordEnds(w[1..], gap, rest);
    } else {
      assert w[1..] + (gap + rest) == gap + rest;
    }
  }

  lemma {:induction false} BlanksAreSkipped(gap: string, rest: string)
    requires forall i | 0 <= i < |gap| :: IsSpace(gap[i])
    ensures Split(gap + rest) == Split(rest)
  {
    hide IsSpace;
    if gap == "" {
      assert gap + rest == rest;
    } else {
      BlanksAreSkipped(gap[1..], rest);
      assert (gap + rest)[1..] == gap[1..] + rest;
    }
  }

  /** A text is split at its white space and nowhere else: blanks at the front go, and a word that
      white space or the end follows is the first word, whole. */
  lemma {:induction false} SplitTakesAWord(lead: string, w: string, gap: string, rest: string)
    requires Blank(lead) && Blank(gap) && (gap == "" ==> rest == "")
    requires w != "" && forall i | 0 <= i < |w| :: w[i] !in WHITE_SPACE
    ensures Split(lead + (w + (gap + rest))) == [w] + Split(rest)
    ensures Split(lead) == []
  {
    hide IsSpace;
    forall c: char { SpacesAreTheWhiteSpace(c); }
    BlanksAreSkipped(lead, w + (gap + rest));
    BlanksAreSkipped(lead, "");
    assert lead + "" == lead;
    WordEnds(w, gap, rest);
    var s := w + (gap + rest);
    assert s[..|w|] == w && s[|w|..] == gap + rest && !IsSpace(s[0]);
    BlanksAreSkipped(gap, rest);
  }

  /** A word loses its trailing punctuation, all of it and nothing else. */
  lemma {:induction false} WordsLoseTrailingPunctuation(w: string, tail: string)
    requires forall i | 0 <= i < |tail| :: tail[i] in ".,!?;:…،؛؟"
    requires w != "" ==> w[|w| - 1] !in ".,!?;:…،؛؟"
    ensures TrimmedPunctuation(w + tail) == w
  {
    if tail == "" {
      assert w + tail == w;
    } else {
      WordsLoseTrailingPunctuation(w, tail[..|tail| - 1]);
      assert (w + tail)[..|w + tail| - 1] == w + tail[..|tail| - 1];
    }
  }

  /** So the words of a text are those between its white space, each without its trailing punctuation,
      and one that is nothing else is no word. */
  lemma {:induction false} WordsAreTheStems(lead: string, w: string, tail: string, gap: string, rest: string)
    requires Blank(lead) && Blank(gap) && (gap == "" ==> rest == "")
    requires w + tail != "" && forall i | 0 <= i < |w + tail| :: (w + tail)[i] !in WHITE_SPACE
    requires forall i | 0 <= i < |tail| :: tail[i] in ".,!?;:…،؛؟"
    requires w != "" ==> w[|w| - 1] !in ".,!?;:…،؛؟"
    ensures Words(lead + ((w + tail) + (gap + rest))) == (if w == "" then [] else [w]) + Words(rest)
    ensures Words(lead) == []
  {
    hide Split, TrimmedPunctuation;
    SplitTakesAWord(lead, w + tail, gap, rest);
    WordsLoseTrailingPunctuation(w, tail);
    assert ([w + tail] + Split(rest))[1..] == Split(rest);
  }

  /** A code is a tenant's code with any digits behind it.  All digits go before the tables are
      asked, so a table entry that itself ends in a digit is never met. */
  lemma {:induction false} CodesAreStemsWithANumber(w: string, c: Config)
    ensures (IsCode(w, c) <==> exists n ::
      0 < n <= |w| && w[..n] in c.codes && !('0' <= w[n - 1] <= '9') && forall i | n <= i < |w| :: '0' <= w[i] <= '9')
  {
    var bare := TrimmedDigits(w);
    DigitsTrimmed(w);
    if IsCode(w, c) {
      assert w[..|bare|] == bare;
    }
    forall n | 0 < n <= |w| && w[..n] in c.codes && !('0' <= w[n - 1] <= '9')
               && forall i | n <= i < |w| :: '0' <= w[i] <= '9'
      ensures IsCode(w, c)
    {
      StemIsFound(w, n);
    }
  }

  lemma {:induction false} StemIsFound(w: string, n: nat)
    requires 0 < n <= |w| && !('0' <= w[n - 1] <= '9')
    requires forall i | n <= i < |w| :: '0' <= w[i] <= '9'
    ensures TrimmedDigits(w) == w[..n]
  {
    if n < |w| {
      StemIsFound(w[..|w| - 1], n);
      assert w[..|w| - 1][..n] == w[..n];
    }
  }

  lemma {:induction false} DigitsTrimmed(w: string)
    ensures var bare := TrimmedDigits(w);
      && bare <= w
      && (bare != "" ==> !('0' <= bare[|bare| - 1] <= '9'))
      && forall i | |bare| <= i < |w| :: '0' <= w[i] <= '9'
  {
    if w != "" && IsDecimal(w[|w| - 1]) { DigitsTrimmed(w[..|w| - 1]); }
  }

  /** A word the tables know. */
  ghost predicate Known(w: string, c: Config) {
    IsCode(w, c) || w in c.fillers || (w != "" && forall x | x in w :: x in c.digits)
  }

  /** A note is recognised if and only if it is a phrase and then fillers, or knows all its words
      and one of them is a code. */
  lemma {:induction false} RecognisedExactlyWhen(words: seq<string>, c: Config)
    ensures (Recognised(words, c) <==>
      && words != []
      && (|| (exists p, rest :: p in c.phrases && words == p + rest && forall w | w in rest :: w in c.fillers)
          || ((exists w | w in words :: IsCode(w, c)) && forall w | w in words :: Known(w, c))))
  {
    forall p | p in c.phrases && Opens(p, words, c)
      ensures words == p + words[|p|..]
    {}
    forall p, rest | p in c.phrases && words == p + rest && forall w | w in rest :: w in c.fillers
      ensures Opens(p, words, c)
    {
      assert words[|p|..] == rest;
    }
    forall w: string
      ensures IsNumber(w, c) <==> w != "" && forall x | x in w :: x in c.digits
    {
      assert forall i | 0 <= i < |w| :: w[i] in w;
    }
    assert forall w: string :: Known(w, c) <==> IsCode(w, c) || IsNumber(w, c) || w in c.fillers;
  }

  // ----- what the gate lets through --------------------------------------------------------

  /** What the gate says of every note, from its characters and its words. */
  lemma {:induction false} GateSplitsTheNotes(n: Note, c: Config)
    requires c.Valid()
    ensures var short := |n.text| < c.minChars || |Split(n.text)| < c.minTokens;
      && (Gate(n, c) == Some(NoteTooShort) <==> short && !Recognised(Words(n.folded), c))
      && (Gate(n, c) == Some(NoteTooLong) <==> |n.text| >= c.maxChars + 1 && |Split(n.text)| >= c.minTokens)
      && (Gate(n, c) == None <==>
            if short then Recognised(Words(n.folded), c) else |n.text| <= c.maxChars)
  {}

  /** A note of fillers only records no outcome, yet it is recognised in exactly two cases: one
      of the fillers is itself a code, or a phrase opens it, as a blank phrase opens every note. */
  lemma {:induction false} FillersAreRecognisedExactlyWhen(words: seq<string>, c: Config)
    requires words != [] && AllFillers(words, c)
    ensures (Recognised(words, c)
             <==> (exists p | p in c.phrases :: p <= words) || exists w | w in words :: IsCode(w, c))
  {
    forall p | p in c.phrases && p <= words
      ensures Opens(p, words, c)
    {
      assert forall w | w in words[|p|..] :: w in words;
    }
  }

  /** One blank phrase in a tenant's table is enough. */
  lemma {:induction false} ABlankPhraseRecognisesFillers(words: seq<string>, c: Config)
    requires words != [] && AllFillers(words, c) && [] in c.phrases
    ensures Recognised(words, c)
  {
    assert [] <= words;
    FillersAreRecognisedExactlyWhen(words, c);
  }

  /** A note over the limit is let through exactly when it has too few tokens and is recognised:
      the too-short branch returns before the length is looked at. */
  lemma {:induction false} LongNotesPassExactlyWhenRecognised(n: Note, c: Config)
    requires c.Valid() && |n.text| > c.maxChars
    ensures Gate(n, c).None? <==> |Split(n.text)| < c.minTokens && Recognised(Words(n.folded), c)
    ensures Gate(n, c).Some? && |Split(n.text)| >= c.minTokens ==> Gate(n, c) == Some(NoteTooLong)
  {}

  function Dots(k: nat): string { if k == 0 then "" else Dots(k - 1) + "." }

  lemma {:induction false} DotsAreOneWord(k: nat)
    ensures |Dots(k)| == k && WordLength(Dots(k)) == k && TrimmedPunctuation("na" + Dots(k)) == "na"
    ensures forall i | 0 <= i < k :: Dots(k)[i] == '.'
  {
    if k > 0 {
      DotsAreOneWord(k - 1);
      var w := "na" + Dots(k);
      assert w[..|w| - 1] == "na" + Dots(k - 1);
      assert w[|w| - 1] == '.';
      AllOneWord(Dots(k));
    }
  }

  lemma {:induction false} AllOneWord(s: string)
    requires forall i | 0 <= i < |s| :: !IsSpace(s[i])
    ensures WordLength(s) == |s|
  {
    if s != "" { AllOneWord(s[1..]); }
  }

  lemma {:induction false} OneWordSplits(s: string)
    requires s != "" && forall i | 0 <= i < |s| :: !IsSpace(s[i])
    ensures Split(s) == [s]
    ensures TrimmedPunctuation(s) != "" ==> Words(s) == [TrimmedPunctuation(s)]
  {
    AllOneWord(s);
    assert s[..|s|] == s && s[|s|..] == "";
    assert [s][1..] == [];
    assert Trimmed([]) == [];
  }

  lemma {:induction false} NaIsRecognised(c: Config)
    requires "na" in c.codes
    ensures Recognised(["na"], c)
  {
    assert TrimmedDigits("na") == "na";
    assert "na" in ["na"] && IsCode("na", c);
  }

  /** Such a note exists for every limit: one code and a long tail of dots. */
  lemma {:induction false} ALongNotePasses(c: Config) returns (n: Note)
    requires c.Valid() && c.minTokens >= 2 && "na" in c.codes
    ensures |n.text| > c.maxChars && Gate(n, c).None?
  {
    hide Recognised, Words, Split, TrimmedPunctuation;
    DotsAreOneWord(c.maxChars);
    var s := "na" + Dots(c.maxChars);
    n := Note(s, s);
    forall i | 0 <= i < |s|
      ensures !IsSpace(s[i])
    {
      assert i >= 2 ==> s[i] == Dots(c.maxChars)[i - 2];
    }
    OneWordSplits(s);
    NaIsRecognised(c);
  }
}
