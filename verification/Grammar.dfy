/** The Turkish plate grammar: normalisation, the full-plate test and the prefix test
    that the constrained beam search prunes with. */
module Grammar {

  datatype PlateGrammar = PlateGrammar(
    letters: set<char>,
    stripWhitespace: bool,
    stripHyphen: bool,
    maximumInputLength: nat)
  {
    /** What the constructor accepts: a non-empty set of upper-case letters and a length limit. */
    ghost predicate Valid() {
      && letters != {}
      && (forall c <- letters :: 'A' <= c <= 'Z')
      && 1 <= maximumInputLength <= 256
    }
  }

  predicate IsDigit(c: char) {
    '0' <= c <= '9'
  }

  predicate IsSpace(c: char) {
    c == ' ' || c == '\t' || c == '\r' || c == '\n'
  }

  function Upper(c: char): char {
    if 'a' <= c <= 'z' then c - 32 as char else c
  }

  predicate AllowedDigitCount(letterCount: nat, digitCount: nat) {
    match letterCount
    case 1 => digitCount == 4 || digitCount == 5
    case 2 => digitCount == 3 || digitCount == 4
    case 3 => digitCount == 2 || digitCount == 3
    case _ => false
  }

  function MaximumDigitCount(letterCount: nat): nat {
    match letterCount
    case 1 => 5
    case 2 => 4
    case 3 => 3
    case _ => 0
  }

  // ---------------------------------------------------------------- normalisation

  predicate Stripped(g: PlateGrammar, c: char) {
    (g.stripWhitespace && IsSpace(c)) || (g.stripHyphen && c == '-')
  }

  /** The characters that survive stripping, upper-cased, in order. */
  function Kept(g: PlateGrammar, text: string): string {
    if text == "" then ""
    else
      var rest := Kept(g, text[..|text| - 1]);
      if Stripped(g, text[|text| - 1]) then rest else rest + [Upper(text[|text| - 1])]
  }

  /** Over-long or non-ASCII input normalises to the empty string. */
  ghost function Normalized(g: PlateGrammar, text: string): string {
    if |text| > g.maximumInputLength || exists c <- text :: c as int >= 128 then "" else Kept(g, text)
  }

  method Normalize(g: PlateGrammar, text: string) returns (normalized: string)
    ensures normalized == Normalized(g, text)
  {
    if |text| > g.maximumInputLength {
      return "";
    }
    normalized := "";
    for i := 0 to |text|
      invariant normalized == Kept(g, text[..i])
      invariant forall c <- text[..i] :: c as int < 128
    {
      assert text[..i + 1] == text[..i] + [text[i]];
      if text[i] as int >= 128 {
        assert text[i] in text;
        return "";
      }
      if !Stripped(g, text[i]) {
        normalized := normalized + [Upper(text[i])];
      }
    }
    assert text[..|text|] == text;
  }

  /** A string the grammar leaves alone: short enough, ASCII, no lower case, nothing to strip. */
  ghost predicate Plain(g: PlateGrammar, text: string) {
    && |text| <= g.maximumInputLength
    && forall c <- text :: c as int < 128 && !Stripped(g, c) && Upper(c) == c
  }

  lemma {:induction false} KeptPlain(g: PlateGrammar, text: string)
    requires forall c <- text :: !Stripped(g, c) && Upper(c) == c
    ensures Kept(g, text) == text
  {
    if text != "" {
      var n := |text| - 1;
      assert text[n] in text;
      KeptPlain(g, text[..n]);
      assert text[..n] + [text[n]] == text;
    }
  }

  lemma {:induction false} KeptIsPlain(g: PlateGrammar, text: string)
    requires forall c <- text :: c as int < 128
    ensures |Kept(g, text)| <= |text|
    ensures forall c <- Kept(g, text) :: c as int < 128 && !Stripped(g, c) && Upper(c) == c
  {
    if text != "" {
      var n := |text| - 1;
      assert text[n] in text;
      assert forall c <- text[..n] :: c in text;
      KeptIsPlain(g, text[..n]);
    }
  }

  lemma NormalizedPlain(g: PlateGrammar, text: string)
    requires Plain(g, text)
    ensures Normalized(g, text) == text
  {
    KeptPlain(g, text);
  }

  /** Normalising twice is normalising once, for every input. */
  lemma NormalizeIdempotent(g: PlateGrammar, text: string)
    ensures Plain(g, Normalized(g, text))
    ensures Normalized(g, Normalized(g, text)) == Normalized(g, text)
  {
    if |text| <= g.maximumInputLength && forall c <- text :: c as int < 128 {
      KeptIsPlain(g, text);
    }
    NormalizedPlain(g, Normalized(g, text));
  }

  // ---------------------------------------------------------------- the language

  /** Two digits naming a province between 01 and 81. */
  predicate Province(s: string) {
    && |s| >= 2 && IsDigit(s[0]) && IsDigit(s[1])
    && var code := (s[0] as int - '0' as int) * 10 + (s[1] as int - '0' as int);
    1 <= code <= 81
  }

  /** After the province: exactly n letters, then only digits. */
  predicate Shape(g: PlateGrammar, s: string, n: nat) {
    && 2 + n <= |s|
    && (forall i | 2 <= i < 2 + n :: s[i] in g.letters)
    && (forall i | 2 + n <= i < |s| :: IsDigit(s[i]))
  }

  /** The plates: province, one to three letters, and a digit count the letter count allows. */
  ghost predicate Plate(g: PlateGrammar, s: string) {
    Province(s) && exists n | 1 <= n <= 3 :: Shape(g, s, n) && AllowedDigitCount(n, |s| - 2 - n)
  }

  /** What the prefix test accepts of an already normalised string. */
  ghost predicate PlateStart(g: PlateGrammar, s: string) {
    || s == ""
    || (|s| == 1 && '0' <= s[0] <= '8')
    || (|s| == 2 && Province(s))
    || (Province(s) && exists n | 1 <= n <= 3 :: Shape(g, s, n) && |s| - 2 - n <= MaximumDigitCount(n))
  }

  /** What the prefix test accepts of an arbitrary string. */
  ghost predicate AcceptsPrefix(g: PlateGrammar, prefix: string) {
    prefix == "" || (Normalized(g, prefix) != "" && PlateStart(g, Normalized(g, prefix)))
  }

  /** Scans the letter run; stops with a fourth letter in hand. */
  method ScanLetters(g: PlateGrammar, s: string) returns (position: nat, letterCount: nat)
    requires |s| >= 2
    ensures position == 2 + letterCount <= |s| && letterCount <= 4
    ensures forall i | 2 <= i < position :: s[i] in g.letters
    ensures letterCount < 4 && position < |s| ==> s[position] !in g.letters
  {
    position, letterCount := 2, 0;
    while position < |s| && s[position] in g.letters
      invariant position == 2 + letterCount <= |s| && letterCount <= 3
      invariant forall i | 2 <= i < position :: s[i] in g.letters
    {
      position := position + 1;
      letterCount := letterCount + 1;
      if letterCount > 3 {
        return;
      }
    }
  }

  method ScanDigits(s: string, start: nat) returns (position: nat)
    requires start <= |s|
    ensures start <= position <= |s|
    ensures forall i | start <= i < position :: IsDigit(s[i])
    ensures position < |s| ==> !IsDigit(s[position])
  {
    position := start;
    while position < |s| && IsDigit(s[position])
      invariant start <= position <= |s|
      invariant forall i | start <= i < position :: IsDigit(s[i])
    {
      position := position + 1;
    }
  }

  /** The scan of the letter run fixes the only shape the string can have. */
  lemma ScanDecidesShape(g: PlateGrammar, s: string, position: nat, letterCount: nat, n: nat)
    requires g.Valid() && 1 <= n <= 3 && Shape(g, s, n)
    requires position == 2 + letterCount <= |s| && letterCount <= 4
    requires forall i | 2 <= i < position :: s[i] in g.letters
    requires letterCount < 4 && position < |s| ==> s[position] !in g.letters
    ensures letterCount == n
  {
    var i := 2 + if n < letterCount then n else 0;
    assert IsDigit(s[i]) || i < 2 + n;
  }

  /** The full-plate test decides exactly the plate language. */
  method IsValidNormalized(g: PlateGrammar, s: string) returns (valid: bool)
    requires g.Valid()
    ensures valid == Plate(g, s)
  {
    if |s| < 6 || |s| > 8 || !Province(s) {
      return false;
    }
    var position, letterCount := ScanLetters(g, s);
    forall n | 1 <= n <= 3 && Shape(g, s, n) ensures letterCount == n {
      ScanDecidesShape(g, s, position, letterCount, n);
    }
    if letterCount > 3 || letterCount == 0 {
      return false;
    }
    var end := ScanDigits(s, position);
    if end != |s| {
      assert !Shape(g, s, letterCount);
      return false;
    }
    assert Shape(g, s, letterCount);
    return AllowedDigitCount(letterCount, |s| - position);
  }

  /** The prefix test decides exactly `AcceptsPrefix`, whatever string it is given. */
  method IsValidPrefix(g: PlateGrammar, prefix: string) returns (valid: bool)
    requires g.Valid()
    ensures valid == AcceptsPrefix(g, prefix)
  {
    var s := Normalize(g, prefix);
    if prefix == "" {
      return true;
    }
    if s == "" || |s| > 8 || !IsDigit(s[0]) {
      return false;
    }
    if |s| == 1 {
      return '0' <= s[0] <= '8';
    }
    if !Province(s) {
      return false;
    }
    if |s| == 2 {
      return true;
    }
    var position, letterCount := ScanLetters(g, s);
    forall n | 1 <= n <= 3 && Shape(g, s, n) ensures letterCount == n {
      ScanDecidesShape(g, s, position, letterCount, n);
    }
    if letterCount > 3 || letterCount == 0 {
      return false;
    }
    if position == |s| {
      assert Shape(g, s, letterCount);
      return true;
    }
    var end := ScanDigits(s, position);
    if end != |s| {
      assert !Shape(g, s, letterCount);
      return false;
    }
    assert Shape(g, s, letterCount);
    return 0 < |s| - position <= MaximumDigitCount(letterCount);
  }

  // ---------------------------------------------------------------- prefix exactness

  /** Some continuation turns the string into a plate. */
  ghost predicate Extends(g: PlateGrammar, s: string) {
    exists rest: string :: Plate(g, s + rest)
  }

  lemma StartOfPlate(g: PlateGrammar, s: string, rest: string)
    requires g.Valid() && Plate(g, s + rest)
    ensures PlateStart(g, s)
  {
    var plate := s + rest;
    var n :| 1 <= n <= 3 && Shape(g, plate, n) && AllowedDigitCount(n, |plate| - 2 - n);
    assert forall i | 0 <= i < |s| :: plate[i] == s[i];
    if |s| > 2 {
      var k := if |s| - 2 < n then |s| - 2 else n;
      assert Shape(g, s, k);
    }
  }

  /** Lengthens a shaped string with digits to a legal count. */
  lemma DigitsComplete(g: PlateGrammar, s: string, n: nat)
    requires g.Valid() && Province(s) && 1 <= n <= 3 && Shape(g, s, n)
    requires |s| - 2 - n <= MaximumDigitCount(n)
    ensures Extends(g, s)
  {
    var missing := MaximumDigitCount(n) - (|s| - 2 - n);
    var rest := seq(missing, _ => '0');
    assert Shape(g, s + rest, n);
    assert Plate(g, s + rest);
  }

  lemma ExtendsFurther(g: PlateGrammar, s: string, more: string)
    requires Extends(g, s + more)
    ensures Extends(g, s)
  {
    var rest :| Plate(g, s + more + rest);
    assert s + more + rest == s + (more + rest);
  }

  lemma StartCompletes(g: PlateGrammar, s: string)
    requires g.Valid() && PlateStart(g, s)
    ensures Extends(g, s)
  {
    var letter :| letter in g.letters;
    if s == "" {
      DigitsComplete(g, "01" + [letter], 1);
      assert s + ("01" + [letter]) == "01" + [letter];
      ExtendsFurther(g, s, "01" + [letter]);
    } else if |s| == 1 {
      var full := s + ("1" + [letter]);
      DigitsComplete(g, full, 1);
      ExtendsFurther(g, s, "1" + [letter]);
    } else if |s| == 2 && Province(s) {
      DigitsComplete(g, s + [letter], 1);
      ExtendsFurther(g, s, [letter]);
    } else {
      var n :| 1 <= n <= 3 && Shape(g, s, n) && |s| - 2 - n <= MaximumDigitCount(n);
      DigitsComplete(g, s, n);
    }
  }

  /** Everything the prefix test may return true for is a prefix of a plate, and it misses none. */
  lemma PlateStartExact(g: PlateGrammar, s: string)
    requires g.Valid()
    ensures PlateStart(g, s) <==> Extends(g, s)
  {
    if PlateStart(g, s) {
      StartCompletes(g, s);
    }
    if Extends(g, s) {
      var rest :| Plate(g, s + rest);
      StartOfPlate(g, s, rest);
    }
  }

  /** Plates consist of digits and capital letters, so normalisation leaves their prefixes alone. */
  lemma PrefixOfPlatePlain(g: PlateGrammar, s: string, rest: string)
    requires g.Valid() && Plate(g, s + rest)
    ensures |s + rest| <= 8
    ensures forall c <- s :: c as int < 128 && !Stripped(g, c) && Upper(c) == c
  {
    var plate := s + rest;
    var n :| 1 <= n <= 3 && Shape(g, plate, n) && AllowedDigitCount(n, |plate| - 2 - n);
    forall i | 0 <= i < |s| ensures IsDigit(s[i]) || 'A' <= s[i] <= 'Z' {
      assert s[i] == plate[i];
    }
  }

  /** The prefix test accepts a string the grammar leaves alone iff some plate starts with it.
      Strings longer than the configured input limit are refused however they continue. */
  lemma PrefixExact(g: PlateGrammar, s: string)
    requires g.Valid() && Plain(g, s)
    ensures AcceptsPrefix(g, s) <==> Extends(g, s)
  {
    NormalizedPlain(g, s);
    PlateStartExact(g, s);
  }

  /** On an arbitrary string: accepted iff empty, or its normal form is a non-empty start of a plate. */
  lemma AcceptsPrefixMeaning(g: PlateGrammar, s: string)
    requires g.Valid()
    ensures AcceptsPrefix(g, s) <==> s == "" || (Normalized(g, s) != "" && Extends(g, Normalized(g, s)))
  {
    PlateStartExact(g, Normalized(g, s));
  }

  /** The prefixes of a plate that the test accepts are exactly those within the length limit. */
  lemma PlatePrefixesAccepted(g: PlateGrammar, s: string, rest: string)
    requires g.Valid() && Plate(g, s + rest)
    ensures AcceptsPrefix(g, s) <==> |s| <= g.maximumInputLength
  {
    PrefixOfPlatePlain(g, s, rest);
    if |s| <= g.maximumInputLength {
      PrefixExact(g, s);
    }
  }

  /** No dead ends and no gaps: a prefix of an accepted plain string is accepted. */
  lemma PrefixClosed(g: PlateGrammar, s: string, more: string)
    requires g.Valid() && Plain(g, s + more) && AcceptsPrefix(g, s + more)
    ensures AcceptsPrefix(g, s)
  {
    PrefixExact(g, s + more);
    ExtendsFurther(g, s, more);
    assert forall c <- s :: c in s + more;
    PrefixExact(g, s);
  }

  /** Exactly when the two tests part. The prefix test lets through what is not a start of a plate only where
      normalisation repaired the text, and turns away a start of a plate only for its length. */
  lemma TestsDisagreeExactly(g: PlateGrammar, s: string)
    requires g.Valid()
    ensures AcceptsPrefix(g, s) && !Extends(g, s)
       <==> s != Normalized(g, s) && Normalized(g, s) != "" && PlateStart(g, Normalized(g, s))
    ensures !AcceptsPrefix(g, s) && Extends(g, s) <==> |s| > g.maximumInputLength && PlateStart(g, s)
    ensures AcceptsPrefix(g, s) ==> (Extends(g, s) <==> s == Normalized(g, s))
  {
    hide PlateStart, Plate;
    NormalizeIdempotent(g, s);
    PlateStartExact(g, s);
    PlateStartExact(g, Normalized(g, s));
    EmptyIsStart(g);
    if Extends(g, s) {
      var rest :| Plate(g, s + rest);
      PlatePrefixesAccepted(g, s, rest);
      PrefixOfPlatePlain(g, s, rest);
      assert |s| <= g.maximumInputLength ==> Plain(g, s);
      if Plain(g, s) {
        NormalizedPlain(g, s);
      }
    }
  }

  lemma EmptyIsStart(g: PlateGrammar)
    ensures PlateStart(g, "")
  {
  }

  /** An input of the first kind, and why the beam search must filter its final texts again: with the default
      stripping a hyphen passes the prefix test although no plate contains one. */
  lemma HyphenSeparatesTheTests()
    ensures exists g: PlateGrammar, s :: g.Valid() && AcceptsPrefix(g, s) && !Extends(g, s)
  {
    var g := PlateGrammar({'A'}, true, true, 32);
    var s := "34-";
    calc {
      Kept(g, s);
      { assert s[..2] == "34"; assert "34"[..1] == "3"; assert "3"[..0] == ""; }
      "34";
    }
    assert Normalized(g, s) == "34";
    assert Province("34") && PlateStart(g, "34");
    assert AcceptsPrefix(g, s);
    forall rest: string ensures !Plate(g, s + rest) {
      assert (s + rest)[2] == '-';
    }
  }
}
