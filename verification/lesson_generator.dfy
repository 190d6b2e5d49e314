/**
 * `LessonGenerator.generateLessonPlan`: validation of the verse and its words,
 * the five question phases with their milestone messages, and the assembly of
 * the lesson plan (question count, total strokes, celebration milestones).
 */
module LessonGenerator {
  import opened Wrappers
  import opened Text
  import opened LessonTypes
  import opened Options
  import opened Distractors

  // ---------------------------------------------------------------------------
  // Validation
  // ---------------------------------------------------------------------------

  /** A word the lesson can use: it has Arabic text and a transliteration that is not blank. */
  predicate Usable(w: Word) {
    w.text != "" && !IsBlank(w.transliteration)
  }

  /**
   * The usable words, in their original order: every kept word is usable,
   * and a word is kept exactly when it occurs in the input and is usable.
   */
  function UsableWords(words: seq<Word>): (r: seq<Word>)
    ensures |r| <= |words|
    ensures forall i | 0 <= i < |r| :: Usable(r[i])
    ensures forall w :: w in r <==> w in words && Usable(w)
  {
    if |words| == 0 then []
    else (if Usable(words[0]) then [words[0]] else []) + UsableWords(words[1..])
  }

  /**
   * The input check and word filter: no ayah or an empty word list is an
   * invalid input, no usable word is the second error, and otherwise the
   * usable words go on to question synthesis.
   */
  function Validate(ayah: Option<Ayah>, words: seq<Word>): (r: Result<seq<Word>, LessonError>)
    ensures r.Failure? <==> ayah.None? || |words| == 0 || UsableWords(words) == []
    ensures r.Failure? ==> (r.error == InvalidInput <==> ayah.None? || |words| == 0)
    ensures r.Success? ==> r.value == UsableWords(words) && |r.value| >= 1
  {
    if ayah.None? || |words| == 0 then Failure(InvalidInput)
    else
      var valid := UsableWords(words);
      if |valid| == 0 then Failure(NoValidWords) else Success(valid)
  }

  // ---------------------------------------------------------------------------
  // Question construction
  // ---------------------------------------------------------------------------

  /**
   * The transliteration a question shows for `w`: the alternative service's
   * transliteration when the word came from it and it is present, otherwise
   * the one that passed validation.
   */
  function ShownTransliteration(w: Word): string {
    if w.source == QuranCloud && w.cloudTransliteration != "" then w.cloudTransliteration
    else w.transliteration
  }

  /** The id of the question at 0-based position `k`: "q1", "q2", ... */
  function QuestionId(k: nat): string {
    "q" + Decimal(k + 1)
  }

  /** The Arabic of the whole verse: the first rendering, else the second, else empty. */
  function FullArabic(ayah: Ayah): string {
    if ayah.arabic1 != "" then ayah.arabic1
    else if ayah.arabic2 != "" then ayah.arabic2
    else ""
  }

  /** The shown transliterations of the words, space-joined. */
  function JoinedTransliteration(ws: seq<Word>): string {
    Join(seq(|ws|, i requires 0 <= i < |ws| => ShownTransliteration(ws[i])))
  }

  /** The Arabic texts of the words, space-joined. */
  function JoinedArabic(ws: seq<Word>): string {
    Join(seq(|ws|, i requires 0 <= i < |ws| => ws[i].text))
  }

  function Min(a: nat, b: nat): nat {
    if a <= b then a else b
  }

  /** `ws.slice(0, 2)`: the first two words, or all of them when there are fewer. */
  function FirstTwo(ws: seq<Word>): seq<Word> {
    ws[..Min(2, |ws|)]
  }

  /** Phase 1, first question for a word: how is this Arabic word read? */
  function ReadQuestion(w: Word, k: nat, dice: Dice): Question {
    var t := ShownTransliteration(w);
    Question(QuestionId(k), ArabicToTransliteration, HowToRead(w.text), t,
      TransliterationOptions(t, dice.order(k)), None, Easy, 1, None, Some(w.text), Some(t))
  }

  /** Phase 1, second question for a word: choose the option for this Arabic word. */
  function SelectQuestion(w: Word, k: nat, dice: Dice): Question {
    var t := ShownTransliteration(w);
    Question(QuestionId(k), WordSelection, ChooseFor(w.text), t,
      TransliterationOptions(t, dice.order(k)), None, Easy, 1, None, Some(w.text), None)
  }

  /** Phase 2 question: write this transliteration in Arabic, with other verse words as distractors. */
  function ReverseQuestion(w: Word, pool: seq<Word>, k: nat, dice: Dice): Question {
    var t := ShownTransliteration(w);
    Question(QuestionId(k), TransliterationToArabic, WriteInArabic(t), w.text,
      ArabicOptions(w.text, pool, dice.order(k)), None, Medium, 1, None, Some(w.text), Some(t))
  }

  /** Phase 3 question: the first two words together, transliteration to Arabic. */
  function CombineQuestion(ws: seq<Word>, k: nat, dice: Dice): Question {
    var t := JoinedTransliteration(FirstTwo(ws));
    var a := JoinedArabic(FirstTwo(ws));
    Question(QuestionId(k), TransliterationToArabic, WriteInArabic(t), a,
      CombinedArabicOptions(a, dice.order(k), dice.shuffle(k), dice.typo(k)),
      None, Medium, 2, None, Some(a), Some(t))
  }

  /** Phase 4 question: pick the transliteration of what the recitation says. */
  function AudioQuestion(w: Word, k: nat, dice: Dice): Question {
    var t := ShownTransliteration(w);
    Question(QuestionId(k), AudioRecognition, ClickWhatYouHear, t,
      TransliterationOptions(t, dice.order(k)), Some(w.audioUrl), Medium, 2, None, Some(w.text), None)
  }

  /** Phase 5 partial-verse question: the first two words, Arabic to transliteration. */
  function PartialQuestion(ws: seq<Word>, k: nat, dice: Dice): Question {
    var a := JoinedArabic(FirstTwo(ws));
    var t := JoinedTransliteration(FirstTwo(ws));
    Question(QuestionId(k), ArabicToTransliteration, WriteInTransliteration(a), t,
      CombinedTransliterationOptions(t, dice.order(k)), None, Hard, 3, None, Some(a), None)
  }

  /** The final challenge: the whole verse, transliteration to Arabic. */
  function VerseArabicQuestion(ayah: Ayah, ws: seq<Word>, k: nat, dice: Dice): Question {
    var t := JoinedTransliteration(ws);
    var a := FullArabic(ayah);
    Question(QuestionId(k), TransliterationToArabic, WriteInArabic(t), a,
      FullVerseOptions(a, dice.order(k), dice.shuffle(k), dice.typo(k)),
      None, Hard, 5, Some(AlmostDone), Some(a), Some(t))
  }

  /** The last question: the whole verse, Arabic to transliteration. */
  function VerseTransliterationQuestion(ayah: Ayah, ws: seq<Word>, k: nat, dice: Dice): Question {
    var t := JoinedTransliteration(ws);
    var a := FullArabic(ayah);
    Question(QuestionId(k), ArabicToTransliteration, WriteInTransliteration(a), t,
      CombinedTransliterationOptions(t, dice.order(k)), None, Hard, 5, Some(Mastered), Some(a), None)
  }

  // ---------------------------------------------------------------------------
  // Phases
  // ---------------------------------------------------------------------------

  /**
   * How each kind of question is built, given the 0-based position it will
   * take in the lesson. The phases below only decide which questions are
   * pushed in which order and where the milestone messages go; the builders
   * decide what each question says.
   */
  datatype Builders = Builders(
    read: (Word, nat) -> Question,
    select: (Word, nat) -> Question,
    reverse: (Word, nat) -> Question,
    combine: nat -> Question,
    audio: (Word, nat) -> Question,
    partial: nat -> Question,
    verseArabic: nat -> Question,
    verseTransliteration: nat -> Question)

  /** The builders of `generateLessonPlan` for a verse and its usable words. */
  function Standard(ayah: Ayah, ws: seq<Word>, dice: Dice): Builders {
    Builders(
      (w: Word, k: nat) => ReadQuestion(w, k, dice),
      (w: Word, k: nat) => SelectQuestion(w, k, dice),
      (w: Word, k: nat) => ReverseQuestion(w, ws, k, dice),
      (k: nat) => CombineQuestion(ws, k, dice),
      (w: Word, k: nat) => AudioQuestion(w, k, dice),
      (k: nat) => PartialQuestion(ws, k, dice),
      (k: nat) => VerseArabicQuestion(ayah, ws, k, dice),
      (k: nat) => VerseTransliterationQuestion(ayah, ws, k, dice))
  }

  /** Phase 1: two questions per word, in word order. */
  function WordPhase(ws: seq<Word>, b: Builders): seq<Question> {
    seq(2 * |ws|, k requires 0 <= k < 2 * |ws| =>
      if k % 2 == 0 then b.read(ws[k / 2], k) else b.select(ws[k / 2], k))
  }

  /** Phase 2, pushed after `start` questions: the first (at most) three words in reverse. */
  function ReversePhase(ws: seq<Word>, start: nat, b: Builders): seq<Question> {
    seq(Min(3, |ws|), i requires 0 <= i < Min(3, |ws|) => b.reverse(ws[i], start + i))
  }

  /** Phase 3, pushed after `start` questions: the first-two-words question, when there are two words. */
  function CombinePhase(ws: seq<Word>, start: nat, b: Builders): seq<Question> {
    if |ws| >= 2 then [b.combine(start)] else []
  }

  /** Phase 4, pushed after `start` questions: audio recognition of the first (at most) two words. */
  function AudioPhase(ws: seq<Word>, start: nat, b: Builders): seq<Question> {
    seq(Min(2, |ws|), i requires 0 <= i < Min(2, |ws|) => b.audio(ws[i], start + i))
  }

  /**
   * Phase 5, pushed after `start` questions: the partial-verse question when
   * there are two words, then the two whole-verse questions.
   */
  function VersePhase(ws: seq<Word>, start: nat, b: Builders): seq<Question> {
    var partial := if |ws| >= 2 then [b.partial(start)] else [];
    var k := start + |partial|;
    partial + [b.verseArabic(k), b.verseTransliteration(k + 1)]
  }

  /** `qs` with the celebration message of question `i` set to `msg`; nothing else changes. */
  function Celebrate(qs: seq<Question>, i: nat, msg: Milestone): (r: seq<Question>)
    requires i < |qs|
    ensures |r| == |qs|
    ensures r[i] == qs[i].(celebrationMessage := Some(msg))
    ensures forall k | 0 <= k < |qs| && k != i :: r[k] == qs[k]
  {
    qs[i := qs[i].(celebrationMessage := Some(msg))]
  }

  /**
   * Where the "getting hard" warning goes in a list of `len` questions:
   * `Math.floor(len * 0.7)`, computed here in exact arithmetic.
   */
  function HardIndex(len: nat): nat {
    len * 7 / 10
  }

  /** Phase 1, then the five-strokes message on question 5 if there is one. */
  function AfterWords(ws: seq<Word>, b: Builders): seq<Question> {
    var qs := WordPhase(ws, b);
    if |qs| >= 5 then Celebrate(qs, 4, FiveStrokes) else qs
  }

  /** Phase 2 after the questions `before`, then the ten-strokes message on question 10 if there is one. */
  function WithReverse(before: seq<Question>, ws: seq<Word>, b: Builders): seq<Question> {
    var qs := before + ReversePhase(ws, |before|, b);
    if |qs| >= 10 then Celebrate(qs, 9, TenStrokes) else qs
  }

  /** Phases 3 and 4 after the questions `before`, then the "getting hard" warning. */
  function WithAudio(before: seq<Question>, ws: seq<Word>, b: Builders): seq<Question> {
    var combined := before + CombinePhase(ws, |before|, b);
    var qs := combined + AudioPhase(ws, |combined|, b);
    var hard := HardIndex(|qs|);
    if hard < |qs| then Celebrate(qs, hard, GettingHard) else qs
  }

  /** All five phases, in push order. */
  function Assemble(ws: seq<Word>, b: Builders): seq<Question> {
    var before := WithAudio(WithReverse(AfterWords(ws, b), ws, b), ws, b);
    before + VersePhase(ws, |before|, b)
  }

  /** The questions of the lesson over the usable words `ws`. */
  function Questions(ayah: Ayah, ws: seq<Word>, dice: Dice): seq<Question> {
    Assemble(ws, Standard(ayah, ws, dice))
  }

  // ---------------------------------------------------------------------------
  // Assembly
  // ---------------------------------------------------------------------------

  /** The sum of the questions' stroke rewards. */
  function TotalStrokes(qs: seq<Question>): nat {
    if |qs| == 0 then 0 else qs[0].strokesReward + TotalStrokes(qs[1..])
  }

  /** The verse key "surah:ayah". */
  function VerseKey(ayah: Ayah): string {
    Decimal(ayah.surahNo) + ":" + Decimal(ayah.ayahNo)
  }

  /**
   * `generateLessonPlan`: fails exactly when validation fails; otherwise the
   * plan counts its questions, totals their rewards, and lists the
   * celebration milestones 5, 10, 15 and the total.
   */
  function GenerateLessonPlan(ayah: Option<Ayah>, words: seq<Word>, dice: Dice): (r: Result<LessonPlan, LessonError>)
    ensures r.Failure? <==> Validate(ayah, words).Failure?
    ensures r.Failure? ==> r.error == Validate(ayah, words).error
    ensures r.Success? ==>
      && r.value.totalQuestions == |r.value.questions|
      && r.value.totalStrokes == TotalStrokes(r.value.questions)
      && r.value.celebrationMilestones == [5, 10, 15, r.value.totalStrokes]
  {
    match Validate(ayah, words)
    case Failure(e) => Failure(e)
    case Success(valid) =>
      var qs := Questions(ayah.value, valid, dice);
      var total := TotalStrokes(qs);
      Success(LessonPlan(VerseKey(ayah.value), |qs|, qs, total, [5, 10, 15, total]))
  }
}
