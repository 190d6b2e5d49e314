/**
 * The distractor generator: the deterministic string transforms that turn a
 * correct answer into wrong ones, and the five option builders that pair them
 * with the correct answer. The random choices the source makes (presentation
 * order, shuffle draws, typo position) arrive as parameters.
 */
module Distractors {
  import opened Wrappers
  import opened Text
  import opened LessonTypes
  import opened Options

  // ---------------------------------------------------------------------------
  // Transliteration variations
  // ---------------------------------------------------------------------------

  /** One entry of the replacement table: replace the first `from` by `to`. */
  datatype Rule = Rule(from: string, to: string)

  /** The common transliteration ambiguities, in the order they are tried. */
  const Replacements: seq<Rule> := [
    Rule("i", "e"), Rule("a", "e"), Rule("u", "o"),
    Rule("h", ""), Rule("ee", "i"), Rule("aa", "a"),
    Rule("kh", "h"), Rule("gh", "g"), Rule("th", "t")
  ]

  /** Every rule changes the text it applies to, never lengthens it, and introduces no space. */
  predicate Shortening(rules: seq<Rule>) {
    forall i | 0 <= i < |rules| ::
      |rules[i].to| <= |rules[i].from| && rules[i].to != rules[i].from && ' ' !in rules[i].to
  }

  /** `xs` back to front. */
  function Reverse<T>(xs: seq<T>): seq<T> {
    seq(|xs|, i requires 0 <= i < |xs| => xs[|xs| - 1 - i])
  }

  /** Some rule at or after index `from` has a pattern that occurs in `s`. */
  predicate SomeRuleApplies(s: string, rules: seq<Rule>, from: nat := 0) {
    exists i | from <= i < |rules| :: Includes(s, rules[i].from)
  }

  /** Rule `j` is the first rule at or after `from` whose pattern occurs in `s`. */
  predicate FirstMatch(s: string, rules: seq<Rule>, from: nat, j: nat) {
    && from <= j < |rules|
    && Includes(s, rules[j].from)
    && forall i | from <= i < j :: !Includes(s, rules[i].from)
  }

  /**
   * One pass of the variation loop over the rules from index `from` on: the
   * first rule (in table order) whose pattern occurs in the non-empty `s` is
   * applied once, then the loop stops. The text changes exactly when some rule
   * applies, and it never grows.
   */
  function ApplyFirstRule(s: string, rules: seq<Rule>, from: nat := 0): (r: string)
    requires Shortening(rules)
    ensures |r| <= |s|
    ensures r != s <==> s != "" && SomeRuleApplies(s, rules, from)
    ensures ' ' !in s ==> ' ' !in r
    decreases |rules| - from
  {
    if from >= |rules| then s
    else if s != "" && Includes(s, rules[from].from) then
      ReplaceFirstChars(s, rules[from].from, rules[from].to);
      ReplaceFirst(s, rules[from].from, rules[from].to)
    else ApplyFirstRule(s, rules, from + 1)
  }

  /** The index of the first rule at or after `from` whose pattern occurs in `s`, if any. */
  function FirstMatchFrom(s: string, rules: seq<Rule>, from: nat): (j: Option<nat>)
    ensures j.Some? ==> FirstMatch(s, rules, from, j.value)
    ensures j.None? ==> forall i | from <= i < |rules| :: !Includes(s, rules[i].from)
    decreases |rules| - from
  {
    if from >= |rules| then None
    else if Includes(s, rules[from].from) then Some(from)
    else FirstMatchFrom(s, rules, from + 1)
  }

  /**
   * A pass applies the first matching rule, at its pattern's first
   * occurrence, and no other: the loop's `break`. An empty text is left alone.
   */
  lemma {:induction false} ApplyFirstRuleIsFirstMatch(s: string, rules: seq<Rule>, from: nat)
    requires Shortening(rules)
    ensures ApplyFirstRule(s, rules, from) ==
      match FirstMatchFrom(s, rules, from)
      case Some(j) => if s == "" then s else ReplaceFirst(s, rules[j].from, rules[j].to)
      case None => s
    decreases |rules| - from
  {
    if from < |rules| && !(s != "" && Includes(s, rules[from].from)) {
      ApplyFirstRuleIsFirstMatch(s, rules, from + 1);
    }
  }

  /** A string that extends the trimmed text of `s` by one non-whitespace character is not `s`. */
  lemma ExtendedTrimDiffers(s: string, x: char)
    requires Trim(s) != "" && !IsWhitespace(x)
    ensures Trim(s) + [x] != s
  {
    TrimIsSlice(s);
  }

  /** A string no longer than the trimmed text of `s`, and different from it, is not `s`. */
  lemma ShorterThanTrimDiffers(s: string, v: string)
    requires |v| <= |Trim(s)| && v != Trim(s)
    ensures v != s
  {
    if |s| == |Trim(s)| {
      TrimIsSlice(s);
      assert Trim(s) == s;
    }
  }

  /** The table, and the table reversed, satisfy `Shortening`. */
  lemma ReplacementsShorten()
    ensures Shortening(Replacements) && Shortening(Reverse(Replacements))
  {
    var rev := Reverse(Replacements);
    assert forall i | 0 <= i < |rev| :: rev[i] in Replacements;
  }

  /**
   * The fallbacks after the two passes: a first variant that is unchanged or
   * empty becomes `clean` + "i", and a second variant that is unchanged, empty
   * or equal to the first becomes `clean` + "a". Variants no longer than
   * `clean` cannot collide with the suffixed ones.
   */
  function Fallbacks(clean: string, v1: string, v2: string): (r: (string, string))
    requires |v1| <= |clean| && |v2| <= |clean|
    ensures v1 == clean || v1 == "" ==> r.0 == clean + "i"
    ensures v1 != clean && v1 != "" ==> r.0 == v1
    ensures v2 == clean || v2 == "" || v2 == r.0 ==> r.1 == clean + "a"
    ensures v2 != clean && v2 != "" && v2 != r.0 ==> r.1 == v2
  {
    var w1 := if v1 == clean then clean + "i" else v1;
    var w2 := if v2 == clean || v2 == w1 then clean + "a" else v2;
    // Final safety check against empty variants.
    var x1 := if w1 == "" then clean + "i" else w1;
    var x2 := if w2 == "" then clean + "a" else w2;
    (x1, x2)
  }

  /**
   * The variation passes on a non-empty trimmed text. The first variant is the
   * forward pass over the table, or `clean` + "i" when that pass changes
   * nothing or leaves nothing. The second is the pass over the reversed table
   * (run only when the first pass changed the text), or `clean` + "a" when it
   * is unchanged, empty or equal to the first. So the two are non-empty,
   * different, and neither equals `clean`.
   */
  function VariantsOf(clean: string): (r: (string, string))
    requires clean != ""
    ensures r.0 != "" && r.1 != "" && r.0 != r.1 && r.0 != clean && r.1 != clean
    ensures |r.0| <= |clean| || r.0 == clean + "i"
    ensures |r.1| <= |clean| || r.1 == clean + "a"
    ensures ' ' !in clean ==> ' ' !in r.0 && ' ' !in r.1
    ensures !SomeRuleApplies(clean, Replacements) ==> r == (clean + "i", clean + "a")
    ensures (ReplacementsShorten(); var v1 := ApplyFirstRule(clean, Replacements);
      && (v1 == clean || v1 == "" ==> r.0 == clean + "i")
      && (v1 != clean && v1 != "" ==> r.0 == v1))
    ensures (ReplacementsShorten(); var v1 := ApplyFirstRule(clean, Replacements);
      var v2 := ApplyFirstRule(clean, Reverse(Replacements));
      v1 != clean ==>
        && (v2 == clean || v2 == "" || v2 == r.0 ==> r.1 == clean + "a")
        && (v2 != clean && v2 != "" && v2 != r.0 ==> r.1 == v2))
  {
    ReplacementsShorten();
    assert (clean + "i")[|clean|] != (clean + "a")[|clean|];
    // First pass over the table.
    var v1 := ApplyFirstRule(clean, Replacements);
    // Second pass over the reversed table; its guard `variant2 !== variant1`
    // compares the still untouched text with the first variant, so it either
    // enables the whole pass or none of it.
    var v2 := if clean != v1 then ApplyFirstRule(clean, Reverse(Replacements)) else clean;
    Fallbacks(clean, v1, v2)
  }

  /**
   * `v` is a usable pair of wrong transliterations for `correct`: both
   * non-empty, different from each other, from `correct` and from its trimmed
   * text, and free of spaces when `correct` is.
   */
  predicate GoodVariants(correct: string, v: (string, string)) {
    && v.0 != "" && v.1 != "" && v.0 != v.1
    && v.0 != correct && v.1 != correct
    && v.0 != Trim(correct) && v.1 != Trim(correct)
    && (' ' !in correct ==> ' ' !in v.0 && ' ' !in v.1)
  }

  /** The placeholders are not blank, so they are good variants of a blank input. */
  lemma PlaceholdersGood(correct: string)
    requires IsBlank(correct)
    ensures GoodVariants(correct, ("Variant1", "Variant2"))
  {
    assert !IsWhitespace("Variant1"[0]) && !IsWhitespace("Variant2"[0]);
    assert "Variant1"[7] != "Variant2"[7];
  }

  /** Variants of the trimmed text are good variants of the untrimmed text. */
  lemma TrimmedVariantsGood(correct: string)
    requires !IsBlank(correct)
    ensures GoodVariants(correct, VariantsOf(Trim(correct)))
  {
    var clean := Trim(correct);
    var v := VariantsOf(clean);
    if v.0 == clean + "i" { ExtendedTrimDiffers(correct, 'i'); }
    else { ShorterThanTrimDiffers(correct, v.0); }
    if v.1 == clean + "a" { ExtendedTrimDiffers(correct, 'a'); }
    else { ShorterThanTrimDiffers(correct, v.1); }
    if ' ' in clean {
      var k :| 0 <= k < |clean| && clean[k] == ' ';
      TrimIsSlice(correct);
      assert correct[TrimStart(correct) + k] == ' ';
    }
  }

  /**
   * `generateTransliterationVariations`: two wrong transliterations of
   * `correct`; blank input gets the placeholders "Variant1" and "Variant2".
   */
  function TransliterationVariations(correct: string): (r: (string, string))
    ensures GoodVariants(correct, r)
  {
    if IsBlank(correct) then
      PlaceholdersGood(correct);
      ("Variant1", "Variant2")
    else
      TrimmedVariantsGood(correct);
      VariantsOf(Trim(correct))
  }

  /**
   * A blank answer gets the placeholders; for any other answer only its
   * trimmed text matters, so surrounding whitespace does not change the
   * variations.
   */
  lemma VariationsCases(correct: string)
    ensures IsBlank(correct) ==> TransliterationVariations(correct) == ("Variant1", "Variant2")
    ensures !IsBlank(correct) ==> TransliterationVariations(correct) == VariantsOf(Trim(correct))
    ensures !IsBlank(correct) && !SomeRuleApplies(Trim(correct), Replacements) ==>
      TransliterationVariations(correct) == (Trim(correct) + "i", Trim(correct) + "a")
    ensures TransliterationVariations(Trim(correct)) == TransliterationVariations(correct)
  {
    TrimIdempotent(correct);
  }

  /**
   * "bismi": the forward pass turns its first "i" into "e"; the reversed
   * table also reaches "i" first and gives the same text, so the second
   * variant falls back to the suffix.
   */
  lemma VariationsOfBismi()
    ensures TransliterationVariations("bismi") == ("besmi", "bismia")
  {
    BismiTrim();
    BismiPasses();
    assert TransliterationVariations("bismi") == VariantsOf("bismi");
    var r := VariantsOf("bismi");
    assert r.0 == "besmi";
    assert r.1 == "bismi" + "a";
    assert "bismi" + "a" == "bismia";
    assert r == ("besmi", "bismia");
  }

  /** "bismi" has no surrounding whitespace. */
  lemma BismiTrim()
    ensures !IsBlank("bismi") && Trim("bismi") == "bismi"
  {
    var s := "bismi";
    assert !IsWhitespace(s[0]);
    assert SkipSpace(s, 0) == 0 && SkipSpaceBack(s, |s|) == |s|;
    assert s[0..5] == s;
  }

  /** Both passes over "bismi" replace its first "i" by "e". */
  lemma BismiPasses()
    ensures ApplyFirstRule("bismi", Replacements) == "besmi"
    ensures ApplyFirstRule("bismi", Reverse(Replacements)) == "besmi"
  {
    var s := "bismi";
    ReplacementsShorten();
    BismiFirstI();
    var rev := Reverse(Replacements);
    assert rev[8] == Rule("i", "e");
    BismiSkipsReversed();
    assert FirstMatchFrom(s, rev, 0) == Some(8);
    ApplyFirstRuleIsFirstMatch(s, rev, 0);
  }

  /** Replacing the first "i" of "bismi" by "e" gives "besmi". */
  lemma BismiFirstI()
    ensures Includes("bismi", "i") && ReplaceFirst("bismi", "i", "e") == "besmi"
  {
    var s := "bismi";
    assert s[0..1] == "b" && s[1..2] == "i";
    assert !OccursAt(s, "i", 0) && OccursAt(s, "i", 1);
    assert IndexOf(s, "i") == Some(1);
    assert s[..1] + "e" + s[2..] == "besmi";
  }

  /** No pattern of the reversed table before its last rule occurs in "bismi". */
  lemma BismiSkipsReversed()
    ensures forall j | 0 <= j < 8 :: !Includes("bismi", Reverse(Replacements)[j].from)
  {
    var s, rev := "bismi", Reverse(Replacements);
    var pats := ["th", "gh", "kh", "aa", "ee", "h", "u", "a"];
    forall j | 0 <= j < 8
      ensures rev[j].from == pats[j]
    {
      assert rev[j] == Replacements[8 - j];
    }
    assert 't' !in s && 'g' !in s && 'k' !in s && 'a' !in s;
    assert 'e' !in s && 'h' !in s && 'u' !in s;
    FirstLetterAbsent(s, "th"); FirstLetterAbsent(s, "gh"); FirstLetterAbsent(s, "kh");
    FirstLetterAbsent(s, "aa"); FirstLetterAbsent(s, "ee"); FirstLetterAbsent(s, "h");
    FirstLetterAbsent(s, "u"); FirstLetterAbsent(s, "a");
    forall j | 0 <= j < 8
      ensures !Includes(s, rev[j].from)
    {
      assert j == 0 || j == 1 || j == 2 || j == 3 || j == 4 || j == 5 || j == 6 || j == 7;
    }
  }

  /** A pattern whose first letter does not occur in `s` does not occur in `s`. */
  lemma FirstLetterAbsent(s: string, pat: string)
    requires pat != "" && pat[0] !in s
    ensures !Includes(s, pat)
  {
    forall k: nat
      ensures !OccursAt(s, pat, k)
    {
      if k + |pat| <= |s| {
        assert s[k..k + |pat|][0] == s[k];
      }
    }
  }

  // ---------------------------------------------------------------------------
  // Similar-looking Arabic
  // ---------------------------------------------------------------------------

  /** The Arabic diacritics U+064B..U+0652 (tanwin, short vowels, shadda, sukun). */
  predicate IsDiacritic(c: char) {
    '\U{064B}' <= c <= '\U{0652}'
  }

  const Fatha: char := '\U{064E}'

  /** The letter pairs `generateSimilarArabic` swaps: beh/teh, jeem/hah, dal/thal. */
  const SimilarLetters: seq<Rule> := [
    Rule("\U{0628}", "\U{062A}"), Rule("\U{062C}", "\U{062D}"), Rule("\U{062F}", "\U{0630}")
  ]

  /** `c` is a letter of `SimilarLetters` and `d` its replacement. */
  predicate SimilarPair(c: char, d: char) {
    exists i | 0 <= i < |SimilarLetters| :: SimilarLetters[i].from == [c] && SimilarLetters[i].to == [d]
  }

  /** `s` with every diacritic removed (the global regex replace). */
  function StripDiacritics(s: string): (r: string)
    ensures |r| <= |s|
  {
    if |s| == 0 then ""
    else
      var front := StripDiacritics(s[..|s| - 1]);
      if IsDiacritic(s[|s| - 1]) then front else front + [s[|s| - 1]]
  }

  /**
   * Stripping leaves no diacritic and only characters of `s`, keeps every
   * character of `s` that is not a diacritic, and leaves a text without
   * diacritics as it is.
   */
  lemma {:induction false} StripDiacriticsSpec(s: string)
    ensures forall i | 0 <= i < |StripDiacritics(s)| :: !IsDiacritic(StripDiacritics(s)[i]) && StripDiacritics(s)[i] in s
    ensures forall i | 0 <= i < |s| && !IsDiacritic(s[i]) :: s[i] in StripDiacritics(s)
    ensures (forall i | 0 <= i < |s| :: !IsDiacritic(s[i])) ==> StripDiacritics(s) == s
  {
    if |s| > 0 {
      var init, last := s[..|s| - 1], s[|s| - 1];
      StripDiacriticsSpec(init);
      assert s == init + [last];
      assert forall c | c in init :: c in s;
      forall i | 0 <= i < |s| && !IsDiacritic(s[i])
        ensures s[i] in StripDiacritics(s)
      {
        if i < |s| - 1 {
          assert s[i] == init[i];
        }
      }
    }
  }

  /**
   * Stripping works character by character, keeping the order of what it
   * keeps: it distributes over concatenation.
   */
  lemma {:induction false} StripDiacriticsAppend(a: string, b: string)
    ensures StripDiacritics(a + b) == StripDiacritics(a) + StripDiacritics(b)
    decreases |b|
  {
    if |b| == 0 {
      assert a + b == a;
    } else {
      var init := b[..|b| - 1];
      StripDiacriticsAppend(a, init);
      assert (a + b)[..|a + b| - 1] == a + init;
      assert (a + b)[|a + b| - 1] == b[|b| - 1];
    }
  }

  /** A lone diacritic is dropped, and any other character is kept. */
  lemma StripDiacriticsChar(c: char)
    ensures StripDiacritics([c]) == if IsDiacritic(c) then "" else [c]
  {
    assert [c][..0] == "";
  }

  /**
   * `generateSimilarArabic`: with `addDots`, the text without its diacritics
   * followed by a fatha; without, the first beh, jeem and dal each replaced by
   * its look-alike.
   */
  function SimilarArabic(correct: string, addDots: bool): (r: string)
    ensures addDots ==> |r| >= 1 && r[|r| - 1] == Fatha && forall i | 0 <= i < |r| - 1 :: !IsDiacritic(r[i])
    ensures !addDots ==> |r| == |correct|
  {
    if addDots then
      StripDiacriticsSpec(correct);
      StripDiacritics(correct) + [Fatha]
    else
      var s1 := ReplaceFirst(correct, SimilarLetters[0].from, SimilarLetters[0].to);
      var s2 := ReplaceFirst(s1, SimilarLetters[1].from, SimilarLetters[1].to);
      ReplaceFirst(s2, SimilarLetters[2].from, SimilarLetters[2].to)
  }

  /**
   * The dotted variant of a text is its letters in order with one fatha
   * after them: stripping distributes over the text.
   */
  lemma SimilarArabicDotted(a: string, b: string)
    ensures SimilarArabic(a + b, true) == StripDiacritics(a) + SimilarArabic(b, true)
  {
    var sa, sb := StripDiacritics(a), StripDiacritics(b);
    StripDiacriticsAppend(a, b);
    assert SimilarArabic(a + b, true) == (sa + sb) + [Fatha];
    assert SimilarArabic(b, true) == sb + [Fatha];
    assert (sa + sb) + [Fatha] == sa + (sb + [Fatha]);
  }

  /** A text without diacritics just gains the fatha. */
  lemma SimilarArabicDottedPlain(a: string)
    requires forall i | 0 <= i < |a| :: !IsDiacritic(a[i])
    ensures SimilarArabic(a, true) == a + [Fatha]
  {
    StripDiacriticsSpec(a);
  }

  /**
   * The character the swapped variant holds at `i`: the look-alike of the
   * first beh, the first jeem or the first dal of `s`, and the character of
   * `s` everywhere else.
   */
  function SwappedAt(s: string, i: nat): char
    requires i < |s|
  {
    if IndexOf(s, "\U{0628}") == Some(i) then '\U{062A}'
    else if IndexOf(s, "\U{062C}") == Some(i) then '\U{062D}'
    else if IndexOf(s, "\U{062F}") == Some(i) then '\U{0630}'
    else s[i]
  }

  /** Replacing the first `c` by `d` does not move the first `e`, for a letter `e` that is neither. */
  lemma ReplaceCharKeepsOther(s: string, c: char, d: char, e: char)
    requires c != e && d != e
    ensures IndexOf(ReplaceFirst(s, [c], [d]), [e]) == IndexOf(s, [e])
  {
    ReplaceFirstChar(s, c, d);
    FindCharAgrees(ReplaceFirst(s, [c], [d]), s, e, 0);
  }

  /**
   * The swapped variant replaces exactly the first beh, jeem and dal of the
   * text by teh, hah and thal, and keeps every other character.
   */
  lemma SimilarArabicSwapped(correct: string)
    ensures var r := SimilarArabic(correct, false);
      |r| == |correct| && forall i | 0 <= i < |r| :: r[i] == SwappedAt(correct, i)
  {
    var beh, teh, jeem, hah, dal, thal := '\U{0628}', '\U{062A}', '\U{062C}', '\U{062D}', '\U{062F}', '\U{0630}';
    var s1 := ReplaceFirst(correct, [beh], [teh]);
    var s2 := ReplaceFirst(s1, [jeem], [hah]);
    var s3 := ReplaceFirst(s2, [dal], [thal]);
    assert s3 == SimilarArabic(correct, false) by {
      assert SimilarLetters[0] == Rule([beh], [teh]);
      assert SimilarLetters[1] == Rule([jeem], [hah]);
      assert SimilarLetters[2] == Rule([dal], [thal]);
    }
    ReplaceFirstChar(correct, beh, teh);
    ReplaceFirstChar(s1, jeem, hah);
    ReplaceFirstChar(s2, dal, thal);
    ReplaceCharKeepsOther(correct, beh, teh, jeem);
    ReplaceCharKeepsOther(correct, beh, teh, dal);
    ReplaceCharKeepsOther(s1, jeem, hah, dal);
  }

  /** Every letter the swapped variant changes is one of the three look-alike pairs. */
  lemma SimilarArabicSwappedPairs(correct: string)
    ensures var r := SimilarArabic(correct, false);
      |r| == |correct| && forall i | 0 <= i < |r| :: r[i] == correct[i] || SimilarPair(correct[i], r[i])
  {
    SimilarArabicSwapped(correct);
    var r := SimilarArabic(correct, false);
    forall i | 0 <= i < |r|
      ensures r[i] == correct[i] || SimilarPair(correct[i], r[i])
    {
      if IndexOf(correct, "\U{0628}") == Some(i) {
        OccursAtChar(correct, '\U{0628}', i);
        assert SimilarLetters[0].from == [correct[i]] && SimilarLetters[0].to == [r[i]];
      } else if IndexOf(correct, "\U{062C}") == Some(i) {
        OccursAtChar(correct, '\U{062C}', i);
        assert SimilarLetters[1].from == [correct[i]] && SimilarLetters[1].to == [r[i]];
      } else if IndexOf(correct, "\U{062F}") == Some(i) {
        OccursAtChar(correct, '\U{062F}', i);
        assert SimilarLetters[2].from == [correct[i]] && SimilarLetters[2].to == [r[i]];
      }
    }
  }

  // ---------------------------------------------------------------------------
  // Word shuffle and typo
  // ---------------------------------------------------------------------------

  function Swap<T>(s: seq<T>, i: nat, j: nat): (r: seq<T>)
    requires i < |s| && j < |s|
    ensures |r| == |s|
  {
    s[i := s[j]][j := s[i]]
  }

  /**
   * The Fisher-Yates loop from index `i` down to 1: step `k` swaps position
   * `k` with the position `draw(k)` reduced into 0..k.
   */
  function FisherYates(s: seq<string>, i: nat, draw: nat -> nat): (r: seq<string>)
    requires i < |s|
    ensures |r| == |s|
    decreases i
  {
    if i == 0 then s
    else FisherYates(Swap(s, i, draw(i) % (i + 1)), i - 1, draw)
  }

  /** A swap only rearranges. */
  lemma SwapPermutes<T>(s: seq<T>, i: nat, j: nat)
    requires i < |s| && j < |s|
    ensures multiset(Swap(s, i, j)) == multiset(s)
  {
  }

  /** The Fisher-Yates loop only rearranges: every piece is kept, as often as it occurs. */
  lemma {:induction false} FisherYatesPermutes(s: seq<string>, i: nat, draw: nat -> nat)
    requires i < |s|
    ensures multiset(FisherYates(s, i, draw)) == multiset(s)
    decreases i
  {
    if i > 0 {
      var swapped := Swap(s, i, draw(i) % (i + 1));
      SwapPermutes(s, i, draw(i) % (i + 1));
      FisherYatesPermutes(swapped, i - 1, draw);
    }
  }

  /** Pieces that are a rearrangement of space-free pieces are space-free. */
  lemma PermutationSpaceFree(xs: seq<string>, ys: seq<string>)
    requires SpaceFree(xs) && multiset(ys) == multiset(xs)
    ensures SpaceFree(ys)
  {
    forall i | 0 <= i < |ys|
      ensures ' ' !in ys[i]
    {
      assert ys[i] in multiset(ys);
      assert ys[i] in xs;
    }
  }

  /**
   * `shuffleWords`: the space-separated tokens of `text` in a Fisher-Yates
   * order. With fewer than two tokens the text comes back unchanged.
   */
  function ShuffleWords(text: string, draw: nat -> nat): (r: string)
    ensures |Split(text)| < 2 ==> r == text
  {
    var words := Split(text);
    if |words| < 2 then text
    else Join(FisherYates(words, |words| - 1, draw))
  }

  /** The tokens of a shuffled text are a rearrangement of the tokens of the text. */
  lemma ShuffleWordsRearranges(text: string, draw: nat -> nat)
    ensures multiset(Split(ShuffleWords(text, draw))) == multiset(Split(text))
    ensures |Split(ShuffleWords(text, draw))| == |Split(text)|
  {
    var words := Split(text);
    if |words| >= 2 {
      var shuffled := FisherYates(words, |words| - 1, draw);
      FisherYatesPermutes(words, |words| - 1, draw);
      PermutationSpaceFree(words, shuffled);
      SplitJoin(shuffled);
    }
  }

  /**
   * The confusable-letter table of `addTypo`: alef to alef with hamza, beh to
   * teh, jeem to hah, dal to thal, reh to zain, seen to sheen, ain to ghain,
   * feh to qaf, kaf to gaf, lam to meem, noon to heh, waw to waw with hamza.
   */
  function Confusable(c: char): (r: Option<char>)
    ensures r.Some? ==> r.value != c
  {
    match c
    case '\U{0627}' => Some('\U{0623}')
    case '\U{0628}' => Some('\U{062A}')
    case '\U{062C}' => Some('\U{062D}')
    case '\U{062F}' => Some('\U{0630}')
    case '\U{0631}' => Some('\U{0632}')
    case '\U{0633}' => Some('\U{0634}')
    case '\U{0639}' => Some('\U{063A}')
    case '\U{0641}' => Some('\U{0642}')
    case '\U{0643}' => Some('\U{06AF}')
    case '\U{0644}' => Some('\U{0645}')
    case '\U{0646}' => Some('\U{0647}')
    case '\U{0648}' => Some('\U{0624}')
    case _ => None
  }

  /**
   * `addTypo`: texts shorter than 2 come back unchanged; otherwise the
   * character at the drawn position is replaced by its confusable letter, if
   * it has one. The length is kept, no other position changes, and the text
   * changes exactly when the drawn character is in the table.
   */
  function AddTypo(text: string, draw: nat): (r: string)
    ensures |r| == |text|
    ensures |text| < 2 ==> r == text
    ensures forall i | 0 <= i < |text| ::
      r[i] == text[i] || (i == draw % |text| && Confusable(text[i]) == Some(r[i]))
    ensures r != text <==> |text| >= 2 && Confusable(text[draw % |text|]).Some?
  {
    if |text| < 2 then text
    else
      var at := draw % |text|;
      var r := text[at := Confusable(text[at]).GetOr(text[at])];
      assert r[at] != text[at] ==> r != text;
      r
  }

  // ---------------------------------------------------------------------------
  // Option builders
  // ---------------------------------------------------------------------------

  /**
   * `generateTransliterationOptions`: the answer and its two variations.
   * The options are well formed and their texts pairwise different.
   */
  function TransliterationOptions(correct: string, order: Order): (r: seq<QuestionOption>)
    ensures WellFormed(r, correct) && DistinctTexts(r)
  {
    var v := TransliterationVariations(correct);
    Arrange(correct, v.0, v.1, order)
  }

  /**
   * Option b shows the first variation of the answer and option c the
   * second; for an answer that is not blank these are the variants of its
   * trimmed text.
   */
  lemma TransliterationDistractors(correct: string, order: Order)
    ensures var r, v := TransliterationOptions(correct, order), TransliterationVariations(correct);
      forall i | 0 <= i < |r| :: (r[i].id == B ==> r[i].text == v.0) && (r[i].id == C ==> r[i].text == v.1)
    ensures !IsBlank(correct) ==>
      var r, v := TransliterationOptions(correct, order), VariantsOf(Trim(correct));
      forall i | 0 <= i < |r| :: (r[i].id == B ==> r[i].text == v.0) && (r[i].id == C ==> r[i].text == v.1)
  {
    VariationsCases(correct);
  }

  /** The texts of the pool's words other than `correct`, in pool order. */
  function OtherTexts(correct: string, pool: seq<Word>): (r: seq<string>)
    ensures |r| <= |pool|
    ensures forall i | 0 <= i < |r| :: r[i] != correct
  {
    if |pool| == 0 then []
    else
      var front := OtherTexts(correct, pool[..|pool| - 1]);
      var last := pool[|pool| - 1].text;
      if last != correct then front + [last] else front
  }

  /** Every text of `texts` is the text of a word of `pool`. */
  predicate TextsOfPool(texts: seq<string>, pool: seq<Word>) {
    forall i | 0 <= i < |texts| :: exists j | 0 <= j < |pool| :: pool[j].text == texts[i]
  }

  /** Every text `OtherTexts` keeps is the text of a word of the pool. */
  lemma {:induction false} OtherTextsFromPool(correct: string, pool: seq<Word>)
    ensures TextsOfPool(OtherTexts(correct, pool), pool)
  {
    if |pool| > 0 {
      var init := pool[..|pool| - 1];
      var front := OtherTexts(correct, init);
      OtherTextsFromPool(correct, init);
      forall i | 0 <= i < |front|
        ensures exists j | 0 <= j < |pool| :: pool[j].text == front[i]
      {
        var j :| 0 <= j < |init| && init[j].text == front[i];
        assert pool[j].text == front[i];
      }
      var r := OtherTexts(correct, pool);
      if |r| > |front| {
        assert r[|front|] == pool[|pool| - 1].text;
      }
    }
  }

  /** The filter keeps the order of the pool: it distributes over concatenation. */
  lemma {:induction false} OtherTextsAppend(correct: string, a: seq<Word>, b: seq<Word>)
    ensures OtherTexts(correct, a + b) == OtherTexts(correct, a) + OtherTexts(correct, b)
    decreases |b|
  {
    if |b| == 0 {
      assert a + b == a;
    } else {
      var init := b[..|b| - 1];
      OtherTextsAppend(correct, a, init);
      assert (a + b)[..|a + b| - 1] == a + init;
      assert (a + b)[|a + b| - 1] == b[|b| - 1];
    }
  }

  /** A single word is kept, as its text, exactly when its text is not the answer. */
  lemma OtherTextsSingle(correct: string, w: Word)
    ensures OtherTexts(correct, [w]) == if w.text != correct then [w.text] else []
  {
    assert [w][..0] == [];
  }

  /**
   * `generateArabicOptions`: the first two other words of the verse as
   * distractors, or two similar-looking variants of the answer when the verse
   * has fewer than two other words. The options are well formed.
   */
  function ArabicOptions(correct: string, pool: seq<Word>, order: Order): (r: seq<QuestionOption>)
    ensures WellFormed(r, correct)
  {
    var others := OtherTexts(correct, pool);
    if |others| >= 2 then Arrange(correct, others[0], others[1], order)
    else Arrange(correct, SimilarArabic(correct, false), SimilarArabic(correct, true), order)
  }

  /**
   * When the verse has two other words, the wrong Arabic options are texts of
   * verse words that differ from the answer.
   */
  lemma ArabicDistractorsFromVerse(correct: string, pool: seq<Word>, order: Order)
    requires |OtherTexts(correct, pool)| >= 2
    ensures var r := ArabicOptions(correct, pool, order);
      forall i | 0 <= i < |r| :: !r[i].isCorrect ==>
        r[i].text != correct && exists j | 0 <= j < |pool| :: pool[j].text == r[i].text
    ensures var r, others := ArabicOptions(correct, pool, order), OtherTexts(correct, pool);
      forall i | 0 <= i < |r| ::
        (r[i].id == B ==> r[i].text == others[0]) && (r[i].id == C ==> r[i].text == others[1])
  {
    OtherTextsFromPool(correct, pool);
  }

  /**
   * With fewer than two other words, option b is the swapped variant and
   * option c the dotted variant of the answer.
   */
  lemma ArabicFallback(correct: string, pool: seq<Word>, order: Order)
    requires |OtherTexts(correct, pool)| < 2
    ensures var r := ArabicOptions(correct, pool, order);
      forall i | 0 <= i < |r| ::
        (r[i].id == B ==> r[i].text == SimilarArabic(correct, false))
        && (r[i].id == C ==> r[i].text == SimilarArabic(correct, true))
  {
    assert ArabicOptions(correct, pool, order) == Arrange(correct, SimilarArabic(correct, false), SimilarArabic(correct, true), order);
  }

  /** What `addTypo` returns is a typo of its input: at most one letter replaced by its confusable one. */
  lemma AddTypoIsTypo(text: string, draw: nat)
    ensures IsTypoOf(AddTypo(text, draw), text)
  {
    var r := AddTypo(text, draw);
    forall i, j | 0 <= i < j < |r|
      ensures r[i] == text[i] || r[j] == text[j]
    {
    }
  }

  /** `x` is `text` with its space-separated tokens rearranged. */
  predicate IsTokenRearrangement(x: string, text: string) {
    multiset(Split(x)) == multiset(Split(text))
  }

  /** `x` is `text` with at most one character replaced by its confusable letter. */
  predicate IsTypoOf(x: string, text: string) {
    && |x| == |text|
    && (forall i | 0 <= i < |x| :: x[i] == text[i] || Confusable(text[i]) == Some(x[i]))
    && (forall i, j | 0 <= i < j < |x| :: x[i] == text[i] || x[j] == text[j])
  }

  /** `generateCombinedArabicOptions`: the answer, a word shuffle of it and a typo of it. The options are well formed. */
  function CombinedArabicOptions(correct: string, order: Order, shuffle: nat -> nat, typo: nat): (r: seq<QuestionOption>)
    ensures WellFormed(r, correct)
  {
    Arrange(correct, ShuffleWords(correct, shuffle), AddTypo(correct, typo), order)
  }

  /**
   * Whatever holds of the first wrong answer holds of option b, and whatever
   * holds of the second holds of option c; the other options are correct.
   */
  lemma WrongOptionsFrom(correct: string, w1: string, w2: string, order: Order, p: string -> bool, q: string -> bool)
    requires p(w1) && q(w2)
    ensures var r := Arrange(correct, w1, w2, order);
      forall i | 0 <= i < |r| ::
        && (r[i].id == B ==> p(r[i].text))
        && (r[i].id == C ==> q(r[i].text))
        && (!r[i].isCorrect ==> r[i].id != A)
  {
  }

  /**
   * In the combined Arabic options, option b is a token rearrangement of the
   * answer (`shuffleWords`) and option c a one-letter typo of it (`addTypo`);
   * either may equal the answer itself.
   */
  lemma CombinedArabicDistractors(correct: string, order: Order, shuffle: nat -> nat, typo: nat)
    ensures var r := CombinedArabicOptions(correct, order, shuffle, typo);
      forall i | 0 <= i < |r| ::
        && (r[i].id == B ==> IsTokenRearrangement(r[i].text, correct))
        && (r[i].id == C ==> IsTypoOf(r[i].text, correct))
        && (!r[i].isCorrect ==> r[i].id != A)
  {
    var w1, w2 := ShuffleWords(correct, shuffle), AddTypo(correct, typo);
    ShuffleWordsRearranges(correct, shuffle);
    AddTypoIsTypo(correct, typo);
    WrongOptionsFrom(correct, w1, w2, order, x => IsTokenRearrangement(x, correct), x => IsTypoOf(x, correct));
  }

  /** `generateFullVerseOptions`: the same construction as the combined Arabic options, for the whole verse. */
  function FullVerseOptions(correct: string, order: Order, shuffle: nat -> nat, typo: nat): (r: seq<QuestionOption>)
    ensures WellFormed(r, correct)
    ensures r == CombinedArabicOptions(correct, order, shuffle, typo)
  {
    CombinedArabicOptions(correct, order, shuffle, typo)
  }

  /** The first (`second` false) or second variation of every token. */
  function TokenVariants(words: seq<string>, second: bool): (r: seq<string>)
    ensures |r| == |words|
    ensures forall i | 0 <= i < |r| :: r[i] != words[i]
    ensures SpaceFree(words) ==> SpaceFree(r)
  {
    seq(|words|, i requires 0 <= i < |words| =>
      if second then TransliterationVariations(words[i]).1 else TransliterationVariations(words[i]).0)
  }

  /** Replacing every token by a variation changes the text, and the two variations give different texts. */
  lemma TokenVariantsDistinct(correct: string)
    ensures Join(TokenVariants(Split(correct), false)) != correct
    ensures Join(TokenVariants(Split(correct), true)) != correct
    ensures Join(TokenVariants(Split(correct), false)) != Join(TokenVariants(Split(correct), true))
  {
    var words := Split(correct);
    var firsts, seconds := TokenVariants(words, false), TokenVariants(words, true);
    JoinSplit(correct);
    JoinInjective(firsts, words);
    JoinInjective(seconds, words);
    JoinInjective(firsts, seconds);
    assert firsts[0] != seconds[0];
  }

  /**
   * `text` is the tokens of `words`, each replaced by its first (`second`
   * false) or second variation, joined by spaces: splitting it at the spaces
   * gives back one variation per token.
   */
  predicate PerTokenVariation(text: string, words: seq<string>, second: bool) {
    && |Split(text)| == |words|
    && forall k | 0 <= k < |words| ::
         Split(text)[k] == if second then TransliterationVariations(words[k]).1 else TransliterationVariations(words[k]).0
  }

  /** Joining the token variants and splitting the result again gives back one variation per token. */
  lemma TokenVariantsSplit(correct: string, second: bool)
    ensures PerTokenVariation(Join(TokenVariants(Split(correct), second)), Split(correct), second)
  {
    SplitJoin(TokenVariants(Split(correct), second));
  }

  /**
   * In the combined transliteration options, option b is the answer's tokens
   * each replaced by its first variation, and option c by its second.
   */
  lemma CombinedTransliterationDistractors(correct: string, order: Order)
    ensures var r := CombinedTransliterationOptions(correct, order);
      forall i | 0 <= i < |r| ::
        && (r[i].id == B ==> PerTokenVariation(r[i].text, Split(correct), false))
        && (r[i].id == C ==> PerTokenVariation(r[i].text, Split(correct), true))
  {
    var words := Split(correct);
    var w1, w2 := Join(TokenVariants(words, false)), Join(TokenVariants(words, true));
    TokenVariantsSplit(correct, false);
    TokenVariantsSplit(correct, true);
    WrongOptionsFrom(correct, w1, w2, order,
      x => PerTokenVariation(x, words, false), x => PerTokenVariation(x, words, true));
    assert CombinedTransliterationOptions(correct, order) == Arrange(correct, w1, w2, order);
  }

  /**
   * `generateCombinedTransliterationOptions`: each space-separated token is
   * replaced by its first (resp. second) variation. The options are well
   * formed and their texts pairwise different.
   */
  function CombinedTransliterationOptions(correct: string, order: Order): (r: seq<QuestionOption>)
    ensures WellFormed(r, correct) && DistinctTexts(r)
  {
    var words := Split(correct);
    TokenVariantsDistinct(correct);
    Arrange(correct, Join(TokenVariants(words, false)), Join(TokenVariants(words, true)), order)
  }
}
