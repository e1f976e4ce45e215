/** The scorer (calculateScore, src/password.js:75-150): the minimum-length and
    reference-field rejections, then a composite of length, repetition penalties and
    character-class bonuses, clamped to [0, 100]. */
module Scorer {
  import opened PasswordOptions
  import opened CharClasses
  import opened Repetition

  /** ASCII `toLowerCase` of one character. */
  function ToLowerChar(c: char): char
  {
    if 'A' <= c <= 'Z' then (c as int + 32) as char else c
  }

  /** ASCII `toLowerCase` of a string. */
  function ToLower(s: string): string
  {
    seq(|s|, i requires 0 <= i < |s| => ToLowerChar(s[i]))
  }

  /** Characters that give a pattern built by `new RegExp` a meaning other than itself. */
  predicate IsRegexMeta(c: char)
  {
    c in "\\^$.|?*+()[]{}"
  }

  /** The field is compiled as a pattern only when the password is long enough, differs
      from the field up to case, and partial matching applies to a non-empty field; on
      those inputs the model covers the fields whose pattern stands for itself. */
  predicate FieldIsLiteral(o: Options, password: string, field: string)
  {
    (|password| >= o.minimumLength && o.field && ToLower(password) != ToLower(field)
     && o.fieldPartialMatch && |field| > 0)
    ==> forall i :: 0 <= i < |field| ==> !IsRegexMeta(field[i])
  }

  /** `text` holds `pattern` at some position: what matching a metacharacter-free pattern
      against `text` decides. */
  predicate Contains(text: string, pattern: string)
  {
    exists k :: 0 <= k <= |text| - |pattern| && pattern <= text[k..]
  }

  /** The penalty term `checkRepetition(length, password).length - password.length`. */
  function RepetitionTerm(length: nat, password: string): (r: int)
    requires length >= 1
    ensures -|password| <= r <= 0
  {
    |Reduced(length, password)| - |password|
  }

  function Bonus(holds: bool, points: int): int
  {
    if holds then points else 0
  }

  /** The score before clamping (src/password.js:97-139): four points per character, the
      four repetition terms, the class bonuses and the single-class penalty. */
  function Composite(password: string): (r: int)
    ensures -10 <= r <= 4 * |password| + 65
  {
    4 * |password|
    + RepetitionTerm(1, password) + RepetitionTerm(2, password)
    + RepetitionTerm(3, password) + RepetitionTerm(4, password)
    + Bonus(HasThreeOnOneLine(password, Digit), 5)
    + Bonus(HasPairOnOneLine(password, PairSymbol, PairSymbol), 5)
    + Bonus(HasPairOnOneLine(password, Lower, Upper) || HasPairOnOneLine(password, Upper, Lower), 10)
    + Bonus(Has(password, Letter) && Has(password, Digit), 15)
    + Bonus(Has(password, Symbol) && Has(password, Digit), 15)
    + Bonus(Has(password, Symbol) && Has(password, Letter), 15)
    - Bonus(AllIn(password, Word) || AllIn(password, Digit), 10)
  }

  /** The two clamps of src/password.js:141-147. */
  function Clamp(score: int): (r: int)
    ensures 0 <= r <= 100
    ensures 0 <= score <= 100 ==> r == score
    ensures score > 100 ==> r == 100
    ensures score < 0 ==> r == 0
  {
    var capped := if score > 100 then 100 else score;
    if capped < 0 then 0 else capped
  }

  /** calculateScore(password, field). */
  function CalculateScore(o: Options, password: string, field: string): (r: int)
    requires FieldIsLiteral(o, password, field)
    ensures r == -1 <==> |password| < o.minimumLength
    ensures r == -2 <==> |password| >= o.minimumLength && o.field
                         && (ToLower(password) == ToLower(field)
                             || (o.fieldPartialMatch && |field| > 0 && Contains(ToLower(password), ToLower(field))))
    ensures r == -2 || r == -1 || 0 <= r <= 100
  {
    if |password| < o.minimumLength then -1
    else if o.field && ToLower(password) == ToLower(field) then -2
    else if o.field && o.fieldPartialMatch && |field| > 0 && Contains(ToLower(password), ToLower(field)) then -2
    else Clamp(Composite(password))
  }

  /** The length test comes first: a short password scores -1 even when it equals the
      reference field. */
  lemma ShortPasswordScoresMinusOne(o: Options, password: string, field: string)
    requires |password| < o.minimumLength
    ensures CalculateScore(o, password, field) == -1
  {
  }

  /** With the field configured, a password equal to it up to case scores -2. */
  lemma EqualToFieldScoresMinusTwo(o: Options, password: string, field: string)
    requires o.field && |password| >= o.minimumLength
    requires ToLower(password) == ToLower(field)
    ensures CalculateScore(o, password, field) == -2
  {
  }

  /** With partial matching on, a password holding the non-empty field up to case scores -2. */
  lemma ContainsFieldScoresMinusTwo(o: Options, password: string, field: string, at: nat)
    requires FieldIsLiteral(o, password, field)
    requires o.field && o.fieldPartialMatch && |field| > 0 && |password| >= o.minimumLength
    requires at + |field| <= |password| && ToLower(field) == ToLower(password[at..at + |field|])
    ensures CalculateScore(o, password, field) == -2
  {
    assert ToLower(field) <= ToLower(password)[at..];
  }

  /** With no repeated window at any of the four lengths, the four terms vanish. */
  lemma NoRepetitionTerms(password: string)
    requires Reduced(1, password) == password && Reduced(2, password) == password
    requires Reduced(3, password) == password && Reduced(4, password) == password
    ensures RepetitionTerm(1, password) + RepetitionTerm(2, password)
            + RepetitionTerm(3, password) + RepetitionTerm(4, password) == 0
  {
  }

  lemma AbcdClasses()
    ensures AllIn("abcd", Word)
    ensures !Has("abcd", Digit) && !Has("abcd", Symbol)
    ensures !HasThreeOnOneLine("abcd", Digit) && !HasPairOnOneLine("abcd", PairSymbol, PairSymbol)
    ensures !HasPairOnOneLine("abcd", Lower, Upper) && !HasPairOnOneLine("abcd", Upper, Lower)
  {
  }

  /** "abcd" with the defaults: 16 for the length, no repetition, no bonus, and the
      single-class penalty. */
  lemma AbcdScoresSix()
    ensures Composite("abcd") == 6
    ensures CalculateScore(Defaults, "abcd", "") == 6
  {
    assert Reduced(1, "abcd") == "abcd" && Reduced(2, "abcd") == "abcd";
    assert Reduced(3, "abcd") == "abcd" && Reduced(4, "abcd") == "abcd";
    NoRepetitionTerms("abcd");
    AbcdClasses();
  }

  lemma SupersecretRepetition1() ensures Reduced(1, "Sup3r$ecret!") == "Sup3r$ecret!" {}
  lemma SupersecretRepetition2() ensures Reduced(2, "Sup3r$ecret!") == "Sup3r$ecret!" {}
  lemma SupersecretRepetition3() ensures Reduced(3, "Sup3r$ecret!") == "Sup3r$ecret!" {}
  lemma SupersecretRepetition4() ensures Reduced(4, "Sup3r$ecret!") == "Sup3r$ecret!" {}

  lemma SupersecretOneDigit()
    ensures !HasThreeOnOneLine("Sup3r$ecret!", Digit)
  {
    var p := "Sup3r$ecret!";
    forall i | 0 <= i < |p| && InClass(p[i], Digit) ensures i == 3 { }
  }

  lemma SupersecretPatterns()
    ensures HasPairOnOneLine("Sup3r$ecret!", PairSymbol, PairSymbol)
    ensures HasPairOnOneLine("Sup3r$ecret!", Upper, Lower)
  {
    var p := "Sup3r$ecret!";
    assert InClass(p[5], PairSymbol) && InClass(p[11], PairSymbol) && OnOneLine(p, 5, 11);
    assert InClass(p[0], Upper) && InClass(p[1], Lower) && OnOneLine(p, 0, 1);
  }

  lemma SupersecretClasses()
    ensures Has("Sup3r$ecret!", Letter) && Has("Sup3r$ecret!", Digit) && Has("Sup3r$ecret!", Symbol)
    ensures !AllIn("Sup3r$ecret!", Word) && !AllIn("Sup3r$ecret!", Digit)
  {
    var p := "Sup3r$ecret!";
    assert InClass(p[0], Letter) && InClass(p[3], Digit) && InClass(p[5], Symbol);
    assert !InClass(p[5], Word) && !InClass(p[0], Digit);
  }

  /** "Sup3r$ecret!": 48 for the length, no repetition, two symbols (+5), mixed case (+10),
      letters with a digit, a symbol with a digit and a symbol with letters (+15 each): 108,
      clamped to 100. */
  lemma SupersecretScoresHundred()
    ensures Composite("Sup3r$ecret!") == 108
    ensures CalculateScore(Defaults, "Sup3r$ecret!", "") == 100
  {
    SupersecretRepetition1();
    SupersecretRepetition2();
    SupersecretRepetition3();
    SupersecretRepetition4();
    NoRepetitionTerms("Sup3r$ecret!");
    SupersecretOneDigit();
    SupersecretPatterns();
    SupersecretClasses();
  }

  /** The field test is case-insensitive and comes after the length test. */
  lemma FieldExamples()
    ensures CalculateScore(Defaults.(field := true), "john", "john") == -2
    ensures CalculateScore(Defaults.(field := true, minimumLength := 8), "john", "john") == -1
  {
    EqualToFieldScoresMinusTwo(Defaults.(field := true), "john", "john");
  }

  /** With partial matching, the field is found anywhere in the password, up to case. */
  lemma ContainedFieldExample()
    ensures CalculateScore(Defaults.(field := true), "xJohn99!", "john") == -2
  {
    assert "xJohn99!"[1..5] == "John";
    assert ToLower("John") == "john";
    ContainsFieldScoresMinusTwo(Defaults.(field := true), "xJohn99!", "john", 1);
  }

  /** The length and equality tests run before the field is compiled as a pattern, so they
      hold for any field, e-mail addresses with their `.` included. */
  lemma EmailFieldExamples()
    ensures CalculateScore(Defaults.(field := true), "ab", "j.doe@x.com") == -1
    ensures CalculateScore(Defaults.(field := true), "J.Doe@x.com", "j.doe@x.com") == -2
  {
    var o := Defaults.(field := true);
    ShortPasswordScoresMinusOne(o, "ab", "j.doe@x.com");
    assert ToLower("J.Doe@x.com") == "j.doe@x.com";
    EqualToFieldScoresMinusTwo(o, "J.Doe@x.com", "j.doe@x.com");
  }
}
