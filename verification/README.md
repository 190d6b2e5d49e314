# Lesson generator model

A Dafny model of `LessonGenerator`, the part of the Quran-memorisation app
that turns one verse (an *ayah*) and its word-by-word data into a graduated
multiple-choice lesson. The model covers:

- `generateLessonPlan`:
  - input validation and the word filter;
  - the five question phases, each with its difficulty and stroke reward;
  - the celebration messages written by index;
  - the plan's totals.
- The five option builders.
- The distractor transforms behind the option builders:
  - transliteration variations;
  - similar-looking Arabic;
  - Fisher-Yates word shuffle;
  - one-letter typo.

Everything is written as pure functions over immutable datatypes. The three
random choices the generator makes are explicit inputs, carried by a `Dice`
record. Each is indexed by the question's position:

- the presentation order of a question's three options, one of six `Order`s;
- the Fisher-Yates draws;
- the typo position.

Modules, in dependency order:

- `Wrappers`: `Option` and `Result`.
- `Text`: the JavaScript string operations the generator uses, over
  `seq<char>`: `trim`, `includes`, `replace` with a string pattern,
  `split(' ')`/`join(' ')`, and decimal rendering.
- `LessonTypes`: words, ayah, options, questions, plan, errors, `Dice`.
- `Options`: the shared last step of every option builder. Three options are
  built with ids a/b/c and only `a` correct, then put in the drawn order.
- `Distractors`: the variation table, `generateSimilarArabic`,
  `shuffleWords`, `addTypo` and the five option builders.
- `LessonGenerator`: validation, the question builders, the phases, and
  `GenerateLessonPlan`.
- `LessonProperties`: a closed-form *layout* of a lesson over `n` usable
  words. For each position it gives the slot, and from the slot the kind,
  tier, reward, correct answer and message. It also holds the proof that the
  generator follows this layout.
  - The phases are proved against any `Builders` record that fills its slots.
  - The generator's own builders are then shown to fill them.
- `PlanProperties`: consequences for a generated plan:
  - when generation fails, and with which error;
  - the question count and distinct ids;
  - non-decreasing difficulty;
  - well-formed options;
  - the stroke total and the milestone list;
  - where the messages land;
  - verse-key injectivity.

## Model

| member | source | states |
|---|---|---|
| Text.Trim | services/lessonGenerator.ts:53 | `trim` gives the empty string exactly for blank text. Otherwise the result neither starts nor ends with whitespace. |
| Text.TrimIsSlice | services/lessonGenerator.ts:327 | The trimmed text is a contiguous run of the input, with only whitespace before and after it. |
| Text.TrimIdempotent | services/lessonGenerator.ts:327 | Trimming a trimmed text changes nothing. |
| Text.FindFrom | services/lessonGenerator.ts:341 | The index found is the first occurrence of the pattern at or after the start. No occurrence lies before it. |
| Text.Includes | services/lessonGenerator.ts:341 | `includes` holds exactly when the pattern occurs at some index. |
| Text.ReplaceFirst | services/lessonGenerator.ts:342 | Without an occurrence the text is unchanged. With one, exactly the first occurrence, the one no earlier occurrence precedes, is cut out and `to` put in its place. The length changes by `to` minus `from`, and a shortening rule always changes the text. |
| Text.OccursAtChar | services/lessonGenerator.ts:377 | A one-letter pattern occurs at k exactly when that letter is at k. |
| Text.FindCharAgrees | services/lessonGenerator.ts:377 | Two texts of one length that hold a letter at the same positions find its first occurrence at the same index. |
| Text.ReplaceFirstChar | services/lessonGenerator.ts:377 | Replacing the first occurrence of one letter by another changes exactly the position `indexOf` reports, and no other. |
| Text.ReplaceFirstChars | services/lessonGenerator.ts:377 | Every character of the result comes from the text or from `to`. A one-letter rule keeps the length and changes positions only from `from` to `to`. |
| Text.Split | services/lessonGenerator.ts:384 | `split(' ')` returns at least one piece, and no piece contains a space. |
| Text.JoinSplit | services/lessonGenerator.ts:384-393 | Joining the pieces of a split gives back the text. |
| Text.SplitJoin | services/lessonGenerator.ts:384-393 | Splitting a join of one or more space-free pieces gives back the pieces. |
| Text.JoinInjective | services/lessonGenerator.ts:292-293 | Joins of space-free pieces are equal only if the pieces are equal. |
| Text.Decimal | services/lessonGenerator.ts:69 | The decimal rendering is a non-empty digit string without a leading zero. |
| Text.ParseDecimalInverts | services/lessonGenerator.ts:69 | Reading back the decimal rendering of `n` gives `n`. |
| Text.DecimalInjective | services/lessonGenerator.ts:237 | Different numbers render differently. |
| Options.Arrange | services/lessonGenerator.ts:250-254 | The options are well formed: ids a, b and c; exactly one is correct; the correct one shows the answer. Option b shows the first wrong answer and option c the second. Their texts are pairwise different exactly when the three answers are. |
| Options.ThreeArranged | services/lessonGenerator.ts:254 | Any of the six orders of three values holds each value once. |
| Options.ArrangePermutes | services/lessonGenerator.ts:250-254 | The sorted options are a permutation of the unsorted a/b/c options. |
| Distractors.FirstMatchFrom | services/lessonGenerator.ts:340-345 | The index found is a rule whose pattern occurs, with no earlier rule from the start index matching. None means no rule matches. |
| Distractors.ApplyFirstRuleIsFirstMatch | services/lessonGenerator.ts:340-354 | A pass applies only the first matching rule, at its first occurrence, and then stops. An empty text, or one no rule matches, is returned unchanged. |
| Distractors.ApplyFirstRule | services/lessonGenerator.ts:340-345 | A pass changes the text exactly when some rule matches a non-empty text. It never grows the text, and it adds no space. Which rule it applies is stated by ApplyFirstRuleIsFirstMatch. |
| Distractors.ReplacementsShorten | services/lessonGenerator.ts:330-334 | Every table rule, in either order, changes what it matches, never lengthens it, and adds no space. |
| Distractors.Fallbacks | services/lessonGenerator.ts:355-362 | A first variant that is unchanged or empty becomes the text plus "i"; otherwise it is kept. A second variant that is unchanged, empty or equal to the resulting first becomes the text plus "a"; otherwise it is kept. |
| Distractors.VariantsOf | services/lessonGenerator.ts:336-362 | For a non-empty trimmed text, the first variant is the forward pass's result. It becomes the text plus "i" when that pass changes nothing or leaves nothing. Once the forward pass has changed the text, the second variant is the reversed-table pass's result. It becomes the text plus "a" when that result is unchanged, empty or equal to the first variant. When no rule matches, the result is the two suffixed texts. The two variants are non-empty, differ from each other and from the text, and are space-free when the text is. |
| Distractors.ExtendedTrimDiffers | services/lessonGenerator.ts:357 | The suffix fallback on the trimmed text differs from the untrimmed text. |
| Distractors.ShorterThanTrimDiffers | services/lessonGenerator.ts:342 | A replacement variant of the trimmed text differs from the untrimmed text. |
| Distractors.PlaceholdersGood | services/lessonGenerator.ts:323-324 | The placeholders are good variants of blank input: non-empty, distinct, and not the input. |
| Distractors.TrimmedVariantsGood | services/lessonGenerator.ts:327-365 | The variants of the trimmed text differ from the original text and from its trim. |
| Distractors.TransliterationVariations | services/lessonGenerator.ts:319-366 | Both variations are non-empty, differ from each other, from the answer and from its trim, and are space-free when the answer is. |
| Distractors.VariationsCases | services/lessonGenerator.ts:323-362 | Blank input gets "Variant1" and "Variant2". Any other input gets the variants of its trimmed text. When no table rule matches that text, these are the text plus "i" and plus "a". Surrounding whitespace does not change the result. |
| Distractors.VariationsOfBismi | services/lessonGenerator.ts:336-362 | "bismi" gets "besmi" and "bismia". Both passes replace its first "i", so the second variant falls back to the suffix. |
| Distractors.StripDiacritics | services/lessonGenerator.ts:374 | Removing the diacritics never lengthens the text. Which characters are removed, and the order of the rest, are stated by StripDiacriticsSpec, StripDiacriticsAppend and StripDiacriticsChar. |
| Distractors.StripDiacriticsSpec | services/lessonGenerator.ts:374 | No diacritic remains, and every kept character comes from the input. Every non-diacritic character of the input is kept. Text without diacritics is unchanged. |
| Distractors.StripDiacriticsAppend | services/lessonGenerator.ts:374 | Stripping a concatenation strips each part and concatenates the results, so what is kept stays in order. |
| Distractors.StripDiacriticsChar | services/lessonGenerator.ts:374 | A lone diacritic is removed; any other character is kept. |
| Distractors.SimilarArabic | services/lessonGenerator.ts:371-378 | The dotted variant ends in a fatha and has no other diacritic. The swapped variant keeps the length. |
| Distractors.SimilarArabicDotted | services/lessonGenerator.ts:372-375 | The dotted variant of a + b is a stripped, followed by the dotted variant of b. |
| Distractors.SimilarArabicDottedPlain | services/lessonGenerator.ts:374 | A text without diacritics just gains a fatha. |
| Distractors.ReplaceCharKeepsOther | services/lessonGenerator.ts:377 | Replacing the first occurrence of one letter does not move the first occurrence of a third letter. |
| Distractors.SimilarArabicSwapped | services/lessonGenerator.ts:377 | The swapped variant keeps the length. Its first beh becomes teh, its first jeem hah, and its first dal thal; every other character is kept. |
| Distractors.SimilarArabicSwappedPairs | services/lessonGenerator.ts:377 | Every letter the swapped variant changes is beh→teh, jeem→hah or dal→thal. |
| Distractors.Swap | services/lessonGenerator.ts:390 | A swap keeps the length. |
| Distractors.SwapPermutes | services/lessonGenerator.ts:390 | A swap is a permutation. |
| Distractors.FisherYates | services/lessonGenerator.ts:388-391 | The shuffle loop keeps the number of tokens. |
| Distractors.FisherYatesPermutes | services/lessonGenerator.ts:387-391 | The shuffle loop is a permutation of the tokens. |
| Distractors.PermutationSpaceFree | services/lessonGenerator.ts:387-393 | A permutation of space-free tokens is space-free. |
| Distractors.ShuffleWords | services/lessonGenerator.ts:384-385 | Text with fewer than two tokens comes back unchanged. |
| Distractors.ShuffleWordsRearranges | services/lessonGenerator.ts:383-394 | The tokens of the shuffled text are a permutation of the input's tokens. |
| Distractors.Confusable | services/lessonGenerator.ts:406-410 | Every table letter maps to a different letter. |
| Distractors.AddTypo | services/lessonGenerator.ts:399-416 | Text shorter than 2 is unchanged. Otherwise the length is kept, and only the drawn position may change, to its table image. The text changes exactly when the drawn letter is in the table. |
| Distractors.AddTypoIsTypo | services/lessonGenerator.ts:399-416 | The result is a typo of the input: same length, at most one position changed, to its confusable letter. |
| Distractors.TransliterationOptions | services/lessonGenerator.ts:248-255 | Well-formed options with pairwise different texts. |
| Distractors.TransliterationDistractors | services/lessonGenerator.ts:248-255 | Option b shows the first variation of the answer and option c the second. For an answer that is not blank, these are the variants of its trimmed text. |
| Distractors.OtherTexts | services/lessonGenerator.ts:261 | The other words' texts, none equal to the answer. |
| Distractors.OtherTextsFromPool | services/lessonGenerator.ts:261 | Every kept text is the text of a word of the verse. |
| Distractors.OtherTextsAppend | services/lessonGenerator.ts:261 | The filter distributes over concatenation, so the kept texts keep the verse's order. |
| Distractors.OtherTextsSingle | services/lessonGenerator.ts:261 | A single word is kept, as its text, exactly when its text differs from the answer. |
| Distractors.ArabicOptions | services/lessonGenerator.ts:260-271 | Well-formed options. |
| Distractors.ArabicDistractorsFromVerse | services/lessonGenerator.ts:261-268 | With two other words, each wrong option is a verse word's text that differs from the answer. Option b is the first other word and option c the second. |
| Distractors.ArabicFallback | services/lessonGenerator.ts:262-268 | With fewer than two other words, option b is the swapped variant of the answer and option c the dotted one. |
| Distractors.CombinedArabicOptions | services/lessonGenerator.ts:276-285 | Well-formed options. |
| Distractors.WrongOptionsFrom | services/lessonGenerator.ts:250-254 | Whatever holds of the first wrong answer holds of option b, and whatever holds of the second holds of option c. Every option not marked correct is b or c. |
| Distractors.CombinedArabicDistractors | services/lessonGenerator.ts:277-285 | Option b is a token rearrangement of the answer and option c is a one-letter typo of it. Either may equal the answer. Every option not marked correct is b or c. |
| Distractors.FullVerseOptions | services/lessonGenerator.ts:305-314 | Well-formed options, built exactly as the combined Arabic options. |
| Distractors.TokenVariants | services/lessonGenerator.ts:292-293 | One text per token, each different from its token, and all space-free when the tokens are. Which variation each one is, is stated by TokenVariantsSplit. |
| Distractors.TokenVariantsSplit | services/lessonGenerator.ts:290-293 | Splitting the joined token variants at the spaces gives one piece per token of the answer. Piece k is the first (or second) variation of token k. |
| Distractors.TokenVariantsDistinct | services/lessonGenerator.ts:291-293 | Both per-token variation texts differ from the answer and from each other. |
| Distractors.CombinedTransliterationOptions | services/lessonGenerator.ts:290-300 | Well-formed options with pairwise different texts. |
| Distractors.CombinedTransliterationDistractors | services/lessonGenerator.ts:290-300 | Split at its spaces, option b has one piece per token of the answer, and piece k is the first variation of token k. Option c is the same with the second variation. |
| LessonGenerator.UsableWords | services/lessonGenerator.ts:47-54 | Every kept word has text and a non-blank transliteration. A word is kept exactly when it is in the input and usable. |
| LessonGenerator.Validate | services/lessonGenerator.ts:42-58 | Validation fails exactly for no ayah, no words, or no usable word. The invalid-input error is for the first two. On success it returns the usable words, at least one. |
| LessonGenerator.Celebrate | services/lessonGenerator.ts:95 | Setting a message changes only that question, and only its message. |
| LessonGenerator.GenerateLessonPlan | services/lessonGenerator.ts:37-242 | Generation fails exactly when validation does, with the same error. |
| LessonProperties.SlotAt | services/lessonGenerator.ts:61-231 | Every position of a lesson over `n` words has a slot that fits `n` words. |
| LessonProperties.PositionOf | services/lessonGenerator.ts:61-231 | Every slot that fits `n` words has a position in the lesson. |
| LessonProperties.SlotAtPosition | services/lessonGenerator.ts:61-231 | `PositionOf` followed by `SlotAt` gives back the slot. |
| LessonProperties.PositionOfSlot | services/lessonGenerator.ts:61-231 | `SlotAt` followed by `PositionOf` gives back the position. |
| LessonProperties.FilledIsPlaced | services/lessonGenerator.ts:61-231 | A question that fills a slot at that slot's position is the layout's question there. |
| LessonProperties.WordsAt | services/lessonGenerator.ts:61-96 | Phase 1 gives two questions per word, read then select. Only index 4 may get the five-strokes message, and only for three or more words. |
| LessonProperties.ReverseLength | services/lessonGenerator.ts:99-117 | Phase 2 adds min(3, n) questions. |
| LessonProperties.ReverseAt | services/lessonGenerator.ts:99-122 | Phase 2 appends the reverse questions of the first three words. Only index 9 may get the ten-strokes message, and only for four or more words. |
| LessonProperties.AudioLength | services/lessonGenerator.ts:125-166 | Phases 3 and 4 add one combine question when n ≥ 2, plus min(2, n) audio questions. |
| LessonProperties.AudioAt | services/lessonGenerator.ts:125-172 | Phases 3 and 4 append the combine and audio questions. Then the warning goes at floor(0.7·len). |
| LessonProperties.VerseAt | services/lessonGenerator.ts:183-231 | Phase 5 appends the partial-verse question when n ≥ 2, then the two whole-verse questions. |
| LessonProperties.AssembleLength | services/lessonGenerator.ts:61-231 | The phases push 2n + min(3,n) + min(2,n) + 2 questions, plus 2 more when n ≥ 2, whatever the builders. |
| LessonProperties.AssembleWords | services/lessonGenerator.ts:61-96 | Position k of phase 1 holds the word builder's question, with the message the phases set there. |
| LessonProperties.AssembleReverse | services/lessonGenerator.ts:99-122 | Position k of phase 2 holds the reverse builder's question, with the phases' message. |
| LessonProperties.AssembleCombineAudio | services/lessonGenerator.ts:125-172 | Phases 3 and 4 hold the combine and audio builders' questions, with the phases' message. |
| LessonProperties.AssembleVerse | services/lessonGenerator.ts:183-231 | Phase 5 holds the partial, verse-Arabic and verse-transliteration questions, in that order. |
| LessonProperties.PhaseMessageIsMessage | services/lessonGenerator.ts:94-172 | Before phase 5, the last rule to write a position gives its message. |
| LessonProperties.VerseMessages | services/lessonGenerator.ts:218-230 | The partial question has no message. The last two questions get "almost done" and "mastered". |
| LessonProperties.HardBeforeVerse | services/lessonGenerator.ts:169-172 | The "getting hard" index always falls on an existing question. |
| LessonProperties.WordSlotFilled | services/lessonGenerator.ts:61-96 | A phase-1 question, as stamped, is the layout's question, with the layout's message. |
| LessonProperties.ReverseSlotFilled | services/lessonGenerator.ts:99-122 | The same, for phase 2. |
| LessonProperties.MiddleSlotFilled | services/lessonGenerator.ts:125-172 | The same, for phases 3 and 4. |
| LessonProperties.PartialSlotFilled | services/lessonGenerator.ts:183-204 | The partial-verse question is the layout's, with no message. |
| LessonProperties.VerseArabicSlotFilled | services/lessonGenerator.ts:206-219 | The verse-Arabic question is the layout's, with "almost done". |
| LessonProperties.VerseTransliterationSlotFilled | services/lessonGenerator.ts:221-231 | The last question is the layout's, with "mastered". |
| LessonProperties.VerseSlotFilled | services/lessonGenerator.ts:183-231 | Every phase-5 position holds the layout's question and message. |
| LessonProperties.LayoutAt | services/lessonGenerator.ts:61-231 | For any builders that fill their slots, question k of the lesson is the layout's question k, with `MessageAt(n, k)`. |
| LessonProperties.ReadFits | services/lessonGenerator.ts:67-78 | The read question is arabic_to_transliteration, easy, worth 1, with the shown transliteration as answer, and well-formed, distinct options. |
| LessonProperties.SelectFits | services/lessonGenerator.ts:80-90 | The select question is word_selection, easy, worth 1, with the shown transliteration as answer, and well-formed, distinct options. |
| LessonProperties.ReverseFits | services/lessonGenerator.ts:105-115 | The reverse question is transliteration_to_arabic, medium, worth 1, with the word's Arabic as answer and well-formed options. |
| LessonProperties.CombineFits | services/lessonGenerator.ts:125-145 | The combine question is medium, worth 2, with the first two words' joined Arabic as answer and well-formed options. |
| LessonProperties.AudioFits | services/lessonGenerator.ts:154-164 | The audio question is audio_recognition, medium, worth 2, with well-formed, distinct options. |
| LessonProperties.PartialFits | services/lessonGenerator.ts:183-204 | The partial-verse question is hard, worth 3, with the first two words' joined transliteration as answer and well-formed, distinct options. |
| LessonProperties.VerseArabicFits | services/lessonGenerator.ts:180-219 | The verse-Arabic question is hard, worth 5, with `arabic1`, else `arabic2`, else empty as answer, and well-formed options. |
| LessonProperties.VerseTransliterationFits | services/lessonGenerator.ts:175-231 | The last question is hard, worth 5, with the joined transliteration of all words as answer and well-formed, distinct options. |
| LessonProperties.StandardWordsFit | services/lessonGenerator.ts:61-91 | The generator's phase-1 builders fill their slots. |
| LessonProperties.StandardReverseFits | services/lessonGenerator.ts:99-117 | The generator's phase-2 builder fills its slots. |
| LessonProperties.StandardCombineFits | services/lessonGenerator.ts:125-145 | The generator's phase-3 builder fills its slot. |
| LessonProperties.StandardAudioFits | services/lessonGenerator.ts:148-166 | The generator's phase-4 builder fills its slots. |
| LessonProperties.StandardVerseFits | services/lessonGenerator.ts:174-231 | The generator's phase-5 builders fill their slots. |
| LessonProperties.StandardFits | services/lessonGenerator.ts:61-231 | All of the generator's builders fill their slots. |
| LessonProperties.QuestionAt | services/lessonGenerator.ts:61-231 | Question k of a generated lesson is the layout's question k: its id, kind, tier, reward, answer and message. Its options are well formed, with distinct texts for transliteration questions. |
| PlanProperties.UsableWordsAppend | services/lessonGenerator.ts:47-54 | Filtering distributes over concatenation, so kept words stay in their original order. |
| PlanProperties.UsableWordsSingle | services/lessonGenerator.ts:47-54 | A single word is kept exactly when it is usable. |
| PlanProperties.UsableWordsIdempotent | services/lessonGenerator.ts:47-54 | Filtering the kept words keeps them all. |
| PlanProperties.GenerationFails | services/lessonGenerator.ts:42-58 | Generation fails exactly when the ayah is missing or no word is usable. The error is invalid-input exactly when the ayah is missing or the list is empty. |
| PlanProperties.QuestionsLaidOut | services/lessonGenerator.ts:61-231 | Every generated question sits in its layout slot and carries its layout message. |
| PlanProperties.PlanLaidOut | services/lessonGenerator.ts:233-242 | A generated plan has at least one usable word and laid-out questions. Its key, count, total and milestones are filled in from them. |
| PlanProperties.PlanQuestionCount | services/lessonGenerator.ts:61-238 | The count is 2n + min(3,n) + min(2,n) + 2, plus 2 when n ≥ 2: 6 for one word, 17 for four. |
| PlanProperties.QuestionIdInjective | services/lessonGenerator.ts:69 | Ids "q1", "q2", … differ for different positions. |
| PlanProperties.IdsDistinct | services/lessonGenerator.ts:69 | Question k has id q(k+1), and no two questions share an id. |
| PlanProperties.TierByPosition | services/lessonGenerator.ts:74-227 | Positions are easy through phase 1, medium through phase 4, then hard. |
| PlanProperties.DifficultyNonDecreasing | services/lessonGenerator.ts:74-227 | Difficulty never decreases along the question list. |
| PlanProperties.OptionsWellFormed | services/lessonGenerator.ts:248-314 | Every question has a/b/c options with exactly one correct, showing the answer. Transliteration questions also have three different texts. |
| PlanProperties.TotalFromSteps | services/lessonGenerator.ts:233 | The reduce-sum of rewards equals the growth of any running count that grows by each reward. |
| PlanProperties.TotalStrokesAppend | services/lessonGenerator.ts:233 | Reward sums add over concatenation. |
| PlanProperties.StrokesStep | services/lessonGenerator.ts:75-228 | Each layout position adds its slot's reward to the running stroke count. |
| PlanProperties.LessonStrokes | services/lessonGenerator.ts:233 | The closed-form total is at least 15 for one or more words, and exactly 15 for one. |
| PlanProperties.LaidOutStrokes | services/lessonGenerator.ts:233 | A laid-out lesson's rewards sum to 2n + min(3,n) + 2·min(2,n) + 10, plus 5 when n ≥ 2. |
| PlanProperties.PlanStrokes | services/lessonGenerator.ts:233-241 | The total is at least 15, and exactly 15 iff one word. Milestones are [5, 10, 15, total], not deduplicated: non-decreasing, with the total last. |
| PlanProperties.MessagePositions | services/lessonGenerator.ts:94-230 | The last two positions are "almost done" and "mastered". Five strokes sits only at index 4, and there iff n ≥ 3. Ten strokes sits only at index 9, and there iff n ≥ 5. The warning sits at floor(0.7·len) and nowhere else, and takes index 9 when n = 4. |
| PlanProperties.LaidOutMessages | services/lessonGenerator.ts:94-230 | The same message placement, for the questions of a laid-out lesson. |
| PlanProperties.UpToColonOf | services/lessonGenerator.ts:237 | In `p:q`, with no colon in p, the first colon follows p. |
| PlanProperties.ColonSplit | services/lessonGenerator.ts:237 | Two `p:q` strings with colon-free p are equal only when both halves are. |
| PlanProperties.VerseKeyInjective | services/lessonGenerator.ts:237 | Equal verse keys mean equal surah and verse numbers. |

## Left out

- The HTTP clients, provider fallback, UI, scripts and configuration of the
  app. They do I/O or presentation, and the generator never calls them.
- `async` on `generateLessonPlan`: it awaits nothing. Thrown `Error`s become
  a `Result` failure with one of two `LessonError` values.
- `Math.random`. The sort by a random comparator is modelled as one of the
  six orders of the three options. Each Fisher-Yates draw is a natural
  number reduced modulo `i + 1`, and the typo draw one reduced modulo the
  length. Nothing is claimed about distributions.
- `Math.floor(questions.length * 0.7)` is computed as `len * 7 / 10` in
  exact arithmetic. A JavaScript double can be one lower at some multiples
  of 10.
- Strings are sequences of code points. JavaScript's UTF-16 code units
  only matter for `addTypo`'s index on astral characters, which the letter
  table never contains.
- The Arabic letter tables are mis-encoded in the source text, as UTF-8
  read as Windows-1252. They are decoded to the intended letters. The one
  key that lost a byte is read as feh (U+0641) mapping to qaf. The
  `addTypo` proofs use only "each image differs from its key" (`Confusable`).
  The exact swapped variant of `generateSimilarArabic` (`SimilarArabicSwapped`)
  also relies on the six decoded letters beh, teh, jeem, hah, dal and thal
  being pairwise different.
- Emoji message strings are opaque `Milestone` values with their texts.
- `null` words, a missing `transliteration` object, and the `typeof`
  checks. The records are typed and non-null. A missing or falsy string is
  `""`, and a missing ayah is `None`.
- Question prompts (`question`), `audioUrl`, `arabicText` and
  `transliterationText` are modelled but not the subject of properties
  beyond the answer and the options.
- The `complete_verse` question type is never produced by the generator.
  It exists only in the datatype.
- Distractors.ArabicOptions: no distinct-texts claim. Other words of the
  verse may repeat each other, and the similar-Arabic variants may equal
  the answer when it has no matching letters or already ends in a lone
  fatha.
- Distractors.CombinedArabicOptions: no distinct-texts claim. The shuffle
  may return the same order, and the typo may hit a letter outside the
  table.
- Distractors.FullVerseOptions: no distinct-texts claim, for the same
  reasons. The answer may also be empty when the verse has no Arabic
  text.

Where the code differs from a natural reading of its intent, the model
follows the code:

- The milestone list is `[5, 10, 15, total]` without deduplication. The
  total is never below 15, and equals 15 for a one-word verse, which
  repeats 15.
- The index-4 and index-9 messages are decided before the later phases
  run. The "getting hard" warning overwrites them where it lands, and for
  four words it replaces the ten-strokes message.
- The displayed transliteration is the alternative service's one when
  present. That is not always the field the filter checked.
