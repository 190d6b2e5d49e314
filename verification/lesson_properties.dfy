/**
 * What a generated lesson looks like, stated independently of how the
 * generator builds it: a closed-form layout giving, for each question
 * position of a lesson over `n` usable words, the kind of question there, its
 * difficulty, reward, correct answer and milestone message; and the lemmas
 * proving that the generator's output follows that layout, with the totals
 * and milestones that follow from it.
 */
module LessonProperties {
  import opened Wrappers
  import opened Text
  import opened LessonTypes
  import opened Options
  import opened Distractors
  import opened LessonGenerator

  // ---------------------------------------------------------------------------
  // The layout of a lesson over n words
  // ---------------------------------------------------------------------------

  /** What sits at a question position. */
  datatype Slot =
    | Read(word: nat)         // phase 1: how is this word read?
    | Select(word: nat)       // phase 1: choose the option for this word
    | Reverse(word: nat)      // phase 2: write this word in Arabic
    | Combine                 // phase 3: the first two words in Arabic
    | Audio(word: nat)        // phase 4: what do you hear?
    | Partial                 // phase 5: the first two words in transliteration
    | VerseArabic             // phase 5: the whole verse in Arabic
    | VerseTransliteration    // phase 5: the whole verse in transliteration

  /** 1 when `n` has at least two words, else 0: phases 3 and 5 each add one such question. */
  function Pair(n: nat): nat {
    if n >= 2 then 1 else 0
  }

  /** Where each phase ends. */
  function WordsEnd(n: nat): nat { 2 * n }
  function ReverseEnd(n: nat): nat { WordsEnd(n) + Min(3, n) }
  function CombineEnd(n: nat): nat { ReverseEnd(n) + Pair(n) }
  function AudioEnd(n: nat): nat { CombineEnd(n) + Min(2, n) }
  function PartialEnd(n: nat): nat { AudioEnd(n) + Pair(n) }

  /** The number of questions of a lesson over `n` words. */
  function QuestionCount(n: nat): nat {
    2 * n + Min(3, n) + Min(2, n) + 2 + 2 * Pair(n)
  }

  /** The slot fits a lesson over `n` words: its word exists, and the two-word slots need two words. */
  predicate Fits(s: Slot, n: nat) {
    match s
    case Read(i) => i < n
    case Select(i) => i < n
    case Reverse(i) => i < Min(3, n)
    case Audio(i) => i < Min(2, n)
    case Combine => n >= 2
    case Partial => n >= 2
    case _ => true
  }

  /** The slot at position `k` of a lesson over `n` words. */
  function SlotAt(n: nat, k: nat): (s: Slot)
    requires k < QuestionCount(n)
    ensures Fits(s, n)
  {
    if k < WordsEnd(n) then (if k % 2 == 0 then Read(k / 2) else Select(k / 2))
    else if k < ReverseEnd(n) then Reverse(k - WordsEnd(n))
    else if k < CombineEnd(n) then Combine
    else if k < AudioEnd(n) then Audio(k - CombineEnd(n))
    else if k < PartialEnd(n) then Partial
    else if k == PartialEnd(n) then VerseArabic
    else VerseTransliteration
  }

  /** Where the layout puts slot `s`. */
  function PositionOf(s: Slot, n: nat): (k: nat)
    requires Fits(s, n)
    ensures k < QuestionCount(n)
  {
    match s
    case Read(i) => 2 * i
    case Select(i) => 2 * i + 1
    case Reverse(i) => WordsEnd(n) + i
    case Combine => ReverseEnd(n)
    case Audio(i) => CombineEnd(n) + i
    case Partial => AudioEnd(n)
    case VerseArabic => PartialEnd(n)
    case VerseTransliteration => PartialEnd(n) + 1
  }

  /** Each fitting slot sits at exactly one position: `SlotAt` and `PositionOf` are inverse. */
  lemma SlotAtPosition(s: Slot, n: nat)
    requires Fits(s, n)
    ensures SlotAt(n, PositionOf(s, n)) == s
  {
    if s.Read? || s.Select? {
      var k := PositionOf(s, n);
      assert k / 2 == s.word;
    }
  }

  lemma PositionOfSlot(n: nat, k: nat)
    requires k < QuestionCount(n)
    ensures PositionOf(SlotAt(n, k), n) == k
  {
  }

  function KindOf(s: Slot): QuestionKind {
    match s
    case Read(_) => ArabicToTransliteration
    case Select(_) => WordSelection
    case Reverse(_) => TransliterationToArabic
    case Combine => TransliterationToArabic
    case Audio(_) => AudioRecognition
    case Partial => ArabicToTransliteration
    case VerseArabic => TransliterationToArabic
    case VerseTransliteration => ArabicToTransliteration
  }

  function TierOf(s: Slot): Difficulty {
    match s
    case Read(_) => Easy
    case Select(_) => Easy
    case Reverse(_) => Medium
    case Combine => Medium
    case Audio(_) => Medium
    case _ => Hard
  }

  function RewardOf(s: Slot): nat {
    match s
    case Read(_) => 1
    case Select(_) => 1
    case Reverse(_) => 1
    case Combine => 2
    case Audio(_) => 2
    case Partial => 3
    case _ => 5
  }

  /** The correct answer of the question in slot `s`. */
  function AnswerOf(ayah: Ayah, ws: seq<Word>, s: Slot): string
    requires Fits(s, |ws|)
  {
    match s
    case Read(i) => ShownTransliteration(ws[i])
    case Select(i) => ShownTransliteration(ws[i])
    case Reverse(i) => ws[i].text
    case Combine => JoinedArabic(FirstTwo(ws))
    case Audio(i) => ShownTransliteration(ws[i])
    case Partial => JoinedTransliteration(FirstTwo(ws))
    case VerseArabic => FullArabic(ayah)
    case VerseTransliteration => JoinedTransliteration(ws)
  }

  /** The question asks for a transliteration, so its options come from the variation table. */
  predicate AsksTransliteration(kind: QuestionKind) {
    kind == ArabicToTransliteration || kind == WordSelection || kind == AudioRecognition
  }

  /**
   * The message at position `k`: the later rule wins where two rules meet, in
   * the order the rules run (five strokes, ten strokes, getting hard, almost
   * done, mastered).
   */
  function MessageAt(n: nat, k: nat): Option<Milestone> {
    if k == QuestionCount(n) - 1 then Some(Mastered)
    else if k == QuestionCount(n) - 2 then Some(AlmostDone)
    else if k == HardIndex(AudioEnd(n)) then Some(GettingHard)
    else if k == 9 && n >= 4 then Some(TenStrokes)
    else if k == 4 && n >= 3 then Some(FiveStrokes)
    else None
  }

  /**
   * Question `q`, built at position `k`, is the question of slot `s` (its
   * message aside): the slot's kind, tier, reward and correct answer, options
   * that are well formed for that answer, and pairwise different option texts
   * where the question asks for a transliteration.
   */
  predicate Fills(q: Question, ayah: Ayah, ws: seq<Word>, s: Slot, k: nat)
    requires Fits(s, |ws|)
  {
    && q.id == QuestionId(k)
    && q.kind == KindOf(s)
    && q.difficulty == TierOf(s)
    && q.strokesReward == RewardOf(s)
    && q.correctAnswer == AnswerOf(ayah, ws, s)
    && WellFormed(q.options, q.correctAnswer)
    && (AsksTransliteration(q.kind) ==> DistinctTexts(q.options))
  }

  /** Question `q` is what the layout puts at position `k` (its message aside). */
  predicate Placed(q: Question, ayah: Ayah, ws: seq<Word>, k: nat)
    requires k < QuestionCount(|ws|)
  {
    Fills(q, ayah, ws, SlotAt(|ws|, k), k)
  }

  /** A question that fills slot `s` at the slot's position is placed there. */
  lemma FilledIsPlaced(q: Question, ayah: Ayah, ws: seq<Word>, s: Slot)
    requires Fits(s, |ws|) && Fills(q, ayah, ws, s, PositionOf(s, |ws|))
    ensures Placed(q, ayah, ws, PositionOf(s, |ws|))
  {
    SlotAtPosition(s, |ws|);
  }

  // ---------------------------------------------------------------------------
  // The phases follow the layout, whatever the builders
  // ---------------------------------------------------------------------------

  /** `q` with its celebration message set to `m`, if `m` is a message; otherwise `q` itself. */
  function Stamp(q: Question, m: Option<Milestone>): Question {
    if m.Some? then q.(celebrationMessage := m) else q
  }

  /** The message the first phase sets at `k`. */
  function FiveRule(n: nat, k: nat): Option<Milestone> {
    if k == 4 && n >= 3 then Some(FiveStrokes) else None
  }

  /** The message the second phase sets at `k`. */
  function TenRule(n: nat, k: nat): Option<Milestone> {
    if k == 9 && n >= 4 then Some(TenStrokes) else None
  }

  /** The message the fourth phase sets at `k`. */
  function HardRule(n: nat, k: nat): Option<Milestone> {
    if k == HardIndex(AudioEnd(n)) then Some(GettingHard) else None
  }

  /** The message the phases themselves set at `k`, the later rule winning. */
  function PhaseMessage(n: nat, k: nat): Option<Milestone> {
    if k >= AudioEnd(n) then None
    else if HardRule(n, k).Some? then HardRule(n, k)
    else if TenRule(n, k).Some? then TenRule(n, k)
    else FiveRule(n, k)
  }

  /** The first four phases, with their messages. */
  function Skeleton(ws: seq<Word>, b: Builders): seq<Question> {
    WithAudio(WithReverse(AfterWords(ws, b), ws, b), ws, b)
  }

  lemma WordsAt(ws: seq<Word>, b: Builders, k: nat)
    requires k < WordsEnd(|ws|)
    ensures |AfterWords(ws, b)| == WordsEnd(|ws|)
    ensures AfterWords(ws, b)[k] ==
      Stamp(if k % 2 == 0 then b.read(ws[k / 2], k) else b.select(ws[k / 2], k), FiveRule(|ws|, k))
  {
    assert WordPhase(ws, b)[k] == if k % 2 == 0 then b.read(ws[k / 2], k) else b.select(ws[k / 2], k);
  }

  lemma ReverseLength(before: seq<Question>, ws: seq<Word>, b: Builders)
    ensures |WithReverse(before, ws, b)| == |before| + Min(3, |ws|)
  {
  }

  lemma ReverseAt(before: seq<Question>, ws: seq<Word>, b: Builders, k: nat)
    requires |before| == WordsEnd(|ws|) && k < ReverseEnd(|ws|)
    ensures |WithReverse(before, ws, b)| == ReverseEnd(|ws|)
    ensures WithReverse(before, ws, b)[k] ==
      Stamp(if k < WordsEnd(|ws|) then before[k] else b.reverse(ws[k - WordsEnd(|ws|)], k), TenRule(|ws|, k))
  {
    var p := before + ReversePhase(ws, |before|, b);
    assert |p| >= 10 <==> |ws| >= 4;
    if k >= WordsEnd(|ws|) {
      assert p[k] == ReversePhase(ws, |before|, b)[k - WordsEnd(|ws|)];
    }
  }

  lemma AudioLength(before: seq<Question>, ws: seq<Word>, b: Builders)
    ensures |WithAudio(before, ws, b)| == |before| + Pair(|ws|) + Min(2, |ws|)
  {
    var combined := before + CombinePhase(ws, |before|, b);
    assert |combined + AudioPhase(ws, |combined|, b)| == |before| + Pair(|ws|) + Min(2, |ws|);
  }

  lemma AudioAt(before: seq<Question>, ws: seq<Word>, b: Builders, k: nat)
    requires |before| == ReverseEnd(|ws|) && k < AudioEnd(|ws|)
    ensures |WithAudio(before, ws, b)| == AudioEnd(|ws|)
    ensures WithAudio(before, ws, b)[k] ==
      Stamp(if k < ReverseEnd(|ws|) then before[k]
            else if k < CombineEnd(|ws|) then b.combine(k)
            else b.audio(ws[k - CombineEnd(|ws|)], k),
        HardRule(|ws|, k))
  {
    var n := |ws|;
    var combined := before + CombinePhase(ws, |before|, b);
    var p := combined + AudioPhase(ws, |combined|, b);
    assert |p| == AudioEnd(n);
    assert HardIndex(|p|) < |p|;
    if k >= CombineEnd(n) {
      assert p[k] == AudioPhase(ws, |combined|, b)[k - CombineEnd(n)];
    } else {
      assert p[k] == combined[k];
    }
  }

  lemma VerseAt(before: seq<Question>, ws: seq<Word>, b: Builders, k: nat)
    requires |before| == AudioEnd(|ws|) && AudioEnd(|ws|) <= k < QuestionCount(|ws|)
    ensures |before + VersePhase(ws, |before|, b)| == QuestionCount(|ws|)
    ensures (before + VersePhase(ws, |before|, b))[k] ==
      if k < PartialEnd(|ws|) then b.partial(k)
      else if k == PartialEnd(|ws|) then b.verseArabic(k)
      else b.verseTransliteration(k)
  {
    var tail := VersePhase(ws, |before|, b);
    assert (before + tail)[k] == tail[k - AudioEnd(|ws|)];
  }

  /** The phases push `QuestionCount(n)` questions, whatever the builders. */
  lemma AssembleLength(ws: seq<Word>, b: Builders)
    ensures |Skeleton(ws, b)| == AudioEnd(|ws|)
    ensures |Assemble(ws, b)| == QuestionCount(|ws|)
  {
    var words := AfterWords(ws, b);
    assert |WordPhase(ws, b)| == WordsEnd(|ws|);
    ReverseLength(words, ws, b);
    AudioLength(WithReverse(words, ws, b), ws, b);
  }

  // Where each builder's question lands, whatever the builders.

  lemma AssembleWords(ws: seq<Word>, b: Builders, k: nat)
    requires k < WordsEnd(|ws|)
    ensures |Assemble(ws, b)| == QuestionCount(|ws|)
    ensures Assemble(ws, b)[k] ==
      Stamp(if k % 2 == 0 then b.read(ws[k / 2], k) else b.select(ws[k / 2], k), PhaseMessage(|ws|, k))
  {
    AssembleLength(ws, b);
    var words := AfterWords(ws, b);
    WordsAt(ws, b, k);
    ReverseAt(words, ws, b, k);
    AudioAt(WithReverse(words, ws, b), ws, b, k);
    assert Assemble(ws, b)[k] == Skeleton(ws, b)[k];
  }

  lemma AssembleReverse(ws: seq<Word>, b: Builders, k: nat)
    requires WordsEnd(|ws|) <= k < ReverseEnd(|ws|)
    ensures |Assemble(ws, b)| == QuestionCount(|ws|)
    ensures Assemble(ws, b)[k] == Stamp(b.reverse(ws[k - WordsEnd(|ws|)], k), PhaseMessage(|ws|, k))
  {
    AssembleLength(ws, b);
    var words := AfterWords(ws, b);
    ReverseAt(words, ws, b, k);
    AudioAt(WithReverse(words, ws, b), ws, b, k);
    assert Assemble(ws, b)[k] == Skeleton(ws, b)[k];
  }

  lemma AssembleCombineAudio(ws: seq<Word>, b: Builders, k: nat)
    requires ReverseEnd(|ws|) <= k < AudioEnd(|ws|)
    ensures |Assemble(ws, b)| == QuestionCount(|ws|)
    ensures Assemble(ws, b)[k] ==
      Stamp(if k < CombineEnd(|ws|) then b.combine(k) else b.audio(ws[k - CombineEnd(|ws|)], k),
        PhaseMessage(|ws|, k))
  {
    AssembleLength(ws, b);
    var words := AfterWords(ws, b);
    ReverseLength(words, ws, b);
    AudioAt(WithReverse(words, ws, b), ws, b, k);
    assert Assemble(ws, b)[k] == Skeleton(ws, b)[k];
  }

  lemma AssembleVerse(ws: seq<Word>, b: Builders, k: nat)
    requires AudioEnd(|ws|) <= k < QuestionCount(|ws|)
    ensures |Assemble(ws, b)| == QuestionCount(|ws|)
    ensures Assemble(ws, b)[k] ==
      if k < PartialEnd(|ws|) then b.partial(k)
      else if k == PartialEnd(|ws|) then b.verseArabic(k)
      else b.verseTransliteration(k)
  {
    AssembleLength(ws, b);
    VerseAt(Skeleton(ws, b), ws, b, k);
  }

  // ---------------------------------------------------------------------------
  // Builders that fill the layout's slots
  // ---------------------------------------------------------------------------

  /** The phase-1 builders make, for word `i`, the questions of slots `Read(i)` at 2i and `Select(i)` at 2i+1, without a message. */
  predicate WordBuildersFit(b: Builders, ayah: Ayah, ws: seq<Word>) {
    && (forall i, k | 0 <= i < |ws| && k == 2 * i ::
          Fills(b.read(ws[i], k), ayah, ws, Read(i), k) && b.read(ws[i], k).celebrationMessage == None)
    && (forall i, k | 0 <= i < |ws| && k == 2 * i + 1 ::
          Fills(b.select(ws[i], k), ayah, ws, Select(i), k) && b.select(ws[i], k).celebrationMessage == None)
  }

  /** The phase-2 builder makes the reverse question for each of the first three words, without a message. */
  predicate ReverseBuilderFits(b: Builders, ayah: Ayah, ws: seq<Word>) {
    forall i, k | 0 <= i < Min(3, |ws|) && k == WordsEnd(|ws|) + i ::
      Fills(b.reverse(ws[i], k), ayah, ws, Reverse(i), k) && b.reverse(ws[i], k).celebrationMessage == None
  }

  /** The phase-3 builder makes the combine question, without a message, when there are two words. */
  predicate CombineBuilderFits(b: Builders, ayah: Ayah, ws: seq<Word>) {
    |ws| >= 2 ==>
      Fills(b.combine(ReverseEnd(|ws|)), ayah, ws, Combine, ReverseEnd(|ws|))
      && b.combine(ReverseEnd(|ws|)).celebrationMessage == None
  }

  /** The phase-4 builder makes the audio questions for the first two words, without a message. */
  predicate AudioBuilderFits(b: Builders, ayah: Ayah, ws: seq<Word>) {
    forall i, k | 0 <= i < Min(2, |ws|) && k == CombineEnd(|ws|) + i ::
      Fills(b.audio(ws[i], k), ayah, ws, Audio(i), k) && b.audio(ws[i], k).celebrationMessage == None
  }

  /**
   * The phase-5 builders make the partial-verse question without a message,
   * and the two whole-verse questions with the "almost done" and "mastered"
   * messages.
   */
  predicate VerseBuildersFit(b: Builders, ayah: Ayah, ws: seq<Word>) {
    && (|ws| >= 2 ==>
          Fills(b.partial(AudioEnd(|ws|)), ayah, ws, Partial, AudioEnd(|ws|))
          && b.partial(AudioEnd(|ws|)).celebrationMessage == None)
    && Fills(b.verseArabic(PartialEnd(|ws|)), ayah, ws, VerseArabic, PartialEnd(|ws|))
    && b.verseArabic(PartialEnd(|ws|)).celebrationMessage == Some(AlmostDone)
    && Fills(b.verseTransliteration(PartialEnd(|ws|) + 1), ayah, ws, VerseTransliteration, PartialEnd(|ws|) + 1)
    && b.verseTransliteration(PartialEnd(|ws|) + 1).celebrationMessage == Some(Mastered)
  }

  predicate BuildersFit(b: Builders, ayah: Ayah, ws: seq<Word>) {
    && WordBuildersFit(b, ayah, ws)
    && ReverseBuilderFits(b, ayah, ws)
    && CombineBuilderFits(b, ayah, ws)
    && AudioBuilderFits(b, ayah, ws)
    && VerseBuildersFit(b, ayah, ws)
  }

  /** Below the verse phase, the message at `k` is the one the phases set. */
  lemma PhaseMessageIsMessage(n: nat, k: nat)
    requires k < AudioEnd(n)
    ensures MessageAt(n, k) == PhaseMessage(n, k)
  {
  }

  /** The messages of the verse phase: none on the partial question, then "almost done" and "mastered". */
  lemma VerseMessages(n: nat)
    ensures QuestionCount(n) == PartialEnd(n) + 2
    ensures n >= 2 ==> MessageAt(n, AudioEnd(n)) == None
    ensures MessageAt(n, PartialEnd(n)) == Some(AlmostDone)
    ensures MessageAt(n, PartialEnd(n) + 1) == Some(Mastered)
  {
    if n >= 2 {
      HardBeforeVerse(n);
    }
  }

  /** A lesson with a word puts the "getting hard" message before the verse phase. */
  lemma HardBeforeVerse(n: nat)
    requires n >= 1
    ensures HardIndex(AudioEnd(n)) < AudioEnd(n)
  {
  }

  // Each builder's question, with the message its phase stamps on it, fills its slot.

  lemma WordSlotFilled(ayah: Ayah, ws: seq<Word>, b: Builders, k: nat)
    requires WordBuildersFit(b, ayah, ws) && k < WordsEnd(|ws|)
    ensures var q := Stamp(if k % 2 == 0 then b.read(ws[k / 2], k) else b.select(ws[k / 2], k), PhaseMessage(|ws|, k));
      Placed(q, ayah, ws, k) && q.celebrationMessage == MessageAt(|ws|, k)
  {
    PhaseMessageIsMessage(|ws|, k);
    var i := k / 2;
    if k % 2 == 0 {
      assert k == 2 * i;
      FilledIsPlaced(b.read(ws[i], k), ayah, ws, Read(i));
    } else {
      assert k == 2 * i + 1;
      FilledIsPlaced(b.select(ws[i], k), ayah, ws, Select(i));
    }
  }

  lemma ReverseSlotFilled(ayah: Ayah, ws: seq<Word>, b: Builders, k: nat)
    requires ReverseBuilderFits(b, ayah, ws) && WordsEnd(|ws|) <= k < ReverseEnd(|ws|)
    ensures var q := Stamp(b.reverse(ws[k - WordsEnd(|ws|)], k), PhaseMessage(|ws|, k));
      Placed(q, ayah, ws, k) && q.celebrationMessage == MessageAt(|ws|, k)
  {
    PhaseMessageIsMessage(|ws|, k);
    var i := k - WordsEnd(|ws|);
    assert k == WordsEnd(|ws|) + i;
    FilledIsPlaced(b.reverse(ws[i], k), ayah, ws, Reverse(i));
  }

  lemma MiddleSlotFilled(ayah: Ayah, ws: seq<Word>, b: Builders, k: nat)
    requires CombineBuilderFits(b, ayah, ws) && AudioBuilderFits(b, ayah, ws) && ReverseEnd(|ws|) <= k < AudioEnd(|ws|)
    ensures var q := Stamp(if k < CombineEnd(|ws|) then b.combine(k) else b.audio(ws[k - CombineEnd(|ws|)], k),
                           PhaseMessage(|ws|, k));
      Placed(q, ayah, ws, k) && q.celebrationMessage == MessageAt(|ws|, k)
  {
    PhaseMessageIsMessage(|ws|, k);
    if k >= CombineEnd(|ws|) {
      var i := k - CombineEnd(|ws|);
      assert i < Min(2, |ws|) && k == CombineEnd(|ws|) + i;
      FilledIsPlaced(b.audio(ws[i], k), ayah, ws, Audio(i));
    } else {
      assert |ws| >= 2 && k == ReverseEnd(|ws|);
      FilledIsPlaced(b.combine(k), ayah, ws, Combine);
    }
  }

  lemma PartialSlotFilled(ayah: Ayah, ws: seq<Word>, b: Builders)
    requires VerseBuildersFit(b, ayah, ws) && |ws| >= 2
    ensures AudioEnd(|ws|) < QuestionCount(|ws|)
    ensures Placed(b.partial(AudioEnd(|ws|)), ayah, ws, AudioEnd(|ws|))
    ensures b.partial(AudioEnd(|ws|)).celebrationMessage == MessageAt(|ws|, AudioEnd(|ws|))
  {
    VerseMessages(|ws|);
    FilledIsPlaced(b.partial(AudioEnd(|ws|)), ayah, ws, Partial);
  }

  lemma VerseArabicSlotFilled(ayah: Ayah, ws: seq<Word>, b: Builders)
    requires VerseBuildersFit(b, ayah, ws)
    ensures PartialEnd(|ws|) < QuestionCount(|ws|)
    ensures Placed(b.verseArabic(PartialEnd(|ws|)), ayah, ws, PartialEnd(|ws|))
    ensures b.verseArabic(PartialEnd(|ws|)).celebrationMessage == MessageAt(|ws|, PartialEnd(|ws|))
  {
    VerseMessages(|ws|);
    FilledIsPlaced(b.verseArabic(PartialEnd(|ws|)), ayah, ws, VerseArabic);
  }

  lemma VerseTransliterationSlotFilled(ayah: Ayah, ws: seq<Word>, b: Builders)
    requires VerseBuildersFit(b, ayah, ws)
    ensures PartialEnd(|ws|) + 1 < QuestionCount(|ws|)
    ensures Placed(b.verseTransliteration(PartialEnd(|ws|) + 1), ayah, ws, PartialEnd(|ws|) + 1)
    ensures b.verseTransliteration(PartialEnd(|ws|) + 1).celebrationMessage == MessageAt(|ws|, PartialEnd(|ws|) + 1)
  {
    VerseMessages(|ws|);
    FilledIsPlaced(b.verseTransliteration(PartialEnd(|ws|) + 1), ayah, ws, VerseTransliteration);
  }

  lemma VerseSlotFilled(ayah: Ayah, ws: seq<Word>, b: Builders, k: nat)
    requires VerseBuildersFit(b, ayah, ws) && AudioEnd(|ws|) <= k < QuestionCount(|ws|)
    ensures var q := if k < PartialEnd(|ws|) then b.partial(k)
                     else if k == PartialEnd(|ws|) then b.verseArabic(k)
                     else b.verseTransliteration(k);
      Placed(q, ayah, ws, k) && q.celebrationMessage == MessageAt(|ws|, k)
  {
    var n := |ws|;
    assert QuestionCount(n) == PartialEnd(n) + 2;
    if k < PartialEnd(n) {
      assert n >= 2 && k == AudioEnd(n);
      PartialSlotFilled(ayah, ws, b);
    } else if k == PartialEnd(n) {
      VerseArabicSlotFilled(ayah, ws, b);
    } else {
      assert k == PartialEnd(n) + 1;
      VerseTransliterationSlotFilled(ayah, ws, b);
    }
  }

  /**
   * Whatever the builders, as long as each one makes the question the layout
   * puts in its slot: the phases push `QuestionCount(n)` questions, question
   * `k` is the one the layout puts at `k`, and it carries the message of the
   * last milestone rule that hits `k`.
   */
  lemma LayoutAt(ayah: Ayah, ws: seq<Word>, b: Builders, k: nat)
    requires BuildersFit(b, ayah, ws) && k < QuestionCount(|ws|)
    ensures |Assemble(ws, b)| == QuestionCount(|ws|)
    ensures Placed(Assemble(ws, b)[k], ayah, ws, k)
    ensures Assemble(ws, b)[k].celebrationMessage == MessageAt(|ws|, k)
  {
    var n := |ws|;
    if k < WordsEnd(n) {
      AssembleWords(ws, b, k);
      WordSlotFilled(ayah, ws, b, k);
    } else if k < ReverseEnd(n) {
      AssembleReverse(ws, b, k);
      ReverseSlotFilled(ayah, ws, b, k);
    } else if k < AudioEnd(n) {
      AssembleCombineAudio(ws, b, k);
      MiddleSlotFilled(ayah, ws, b, k);
    } else {
      AssembleVerse(ws, b, k);
      VerseSlotFilled(ayah, ws, b, k);
    }
  }

  // ---------------------------------------------------------------------------
  // The generator's own builders fill the slots
  // ---------------------------------------------------------------------------

  lemma ReadFits(ayah: Ayah, ws: seq<Word>, dice: Dice, i: nat, k: nat)
    requires i < |ws|
    ensures Fills(ReadQuestion(ws[i], k, dice), ayah, ws, Read(i), k)
    ensures ReadQuestion(ws[i], k, dice).celebrationMessage == None
  {
  }

  lemma SelectFits(ayah: Ayah, ws: seq<Word>, dice: Dice, i: nat, k: nat)
    requires i < |ws|
    ensures Fills(SelectQuestion(ws[i], k, dice), ayah, ws, Select(i), k)
    ensures SelectQuestion(ws[i], k, dice).celebrationMessage == None
  {
  }

  lemma ReverseFits(ayah: Ayah, ws: seq<Word>, dice: Dice, i: nat, k: nat)
    requires i < Min(3, |ws|)
    ensures Fills(ReverseQuestion(ws[i], ws, k, dice), ayah, ws, Reverse(i), k)
    ensures ReverseQuestion(ws[i], ws, k, dice).celebrationMessage == None
  {
    var q := ReverseQuestion(ws[i], ws, k, dice);
    assert q.options == ArabicOptions(ws[i].text, ws, dice.order(k));
    assert q.correctAnswer == AnswerOf(ayah, ws, Reverse(i));
  }

  lemma CombineFits(ayah: Ayah, ws: seq<Word>, dice: Dice, k: nat)
    requires |ws| >= 2
    ensures Fills(CombineQuestion(ws, k, dice), ayah, ws, Combine, k)
    ensures CombineQuestion(ws, k, dice).celebrationMessage == None
  {
  }

  lemma AudioFits(ayah: Ayah, ws: seq<Word>, dice: Dice, i: nat, k: nat)
    requires i < Min(2, |ws|)
    ensures Fills(AudioQuestion(ws[i], k, dice), ayah, ws, Audio(i), k)
    ensures AudioQuestion(ws[i], k, dice).celebrationMessage == None
  {
  }

  lemma PartialFits(ayah: Ayah, ws: seq<Word>, dice: Dice, k: nat)
    requires |ws| >= 2
    ensures Fills(PartialQuestion(ws, k, dice), ayah, ws, Partial, k)
    ensures PartialQuestion(ws, k, dice).celebrationMessage == None
  {
    var q := PartialQuestion(ws, k, dice);
    assert q.correctAnswer == AnswerOf(ayah, ws, Partial);
  }

  lemma VerseArabicFits(ayah: Ayah, ws: seq<Word>, dice: Dice, k: nat)
    ensures Fills(VerseArabicQuestion(ayah, ws, k, dice), ayah, ws, VerseArabic, k)
  {
  }

  lemma VerseTransliterationFits(ayah: Ayah, ws: seq<Word>, dice: Dice, k: nat)
    ensures Fills(VerseTransliterationQuestion(ayah, ws, k, dice), ayah, ws, VerseTransliteration, k)
  {
    var q := VerseTransliterationQuestion(ayah, ws, k, dice);
    assert q.correctAnswer == AnswerOf(ayah, ws, VerseTransliteration);
  }

  lemma StandardWordsFit(ayah: Ayah, ws: seq<Word>, dice: Dice)
    ensures WordBuildersFit(Standard(ayah, ws, dice), ayah, ws)
  {
    forall i, k | 0 <= i < |ws| && k == 2 * i
      ensures Fills(ReadQuestion(ws[i], k, dice), ayah, ws, Read(i), k)
      ensures ReadQuestion(ws[i], k, dice).celebrationMessage == None
    {
      ReadFits(ayah, ws, dice, i, k);
    }
    forall i, k | 0 <= i < |ws| && k == 2 * i + 1
      ensures Fills(SelectQuestion(ws[i], k, dice), ayah, ws, Select(i), k)
      ensures SelectQuestion(ws[i], k, dice).celebrationMessage == None
    {
      SelectFits(ayah, ws, dice, i, k);
    }
  }

  lemma StandardReverseFits(ayah: Ayah, ws: seq<Word>, dice: Dice)
    ensures ReverseBuilderFits(Standard(ayah, ws, dice), ayah, ws)
  {
    forall i, k | 0 <= i < Min(3, |ws|) && k == WordsEnd(|ws|) + i
      ensures Fills(ReverseQuestion(ws[i], ws, k, dice), ayah, ws, Reverse(i), k)
      ensures ReverseQuestion(ws[i], ws, k, dice).celebrationMessage == None
    {
      ReverseFits(ayah, ws, dice, i, k);
    }
  }

  lemma StandardCombineFits(ayah: Ayah, ws: seq<Word>, dice: Dice)
    ensures CombineBuilderFits(Standard(ayah, ws, dice), ayah, ws)
  {
    if |ws| >= 2 {
      CombineFits(ayah, ws, dice, ReverseEnd(|ws|));
    }
  }

  lemma StandardAudioFits(ayah: Ayah, ws: seq<Word>, dice: Dice)
    ensures AudioBuilderFits(Standard(ayah, ws, dice), ayah, ws)
  {
    forall i, k | 0 <= i < Min(2, |ws|) && k == CombineEnd(|ws|) + i
      ensures Fills(AudioQuestion(ws[i], k, dice), ayah, ws, Audio(i), k)
      ensures AudioQuestion(ws[i], k, dice).celebrationMessage == None
    {
      AudioFits(ayah, ws, dice, i, k);
    }
  }

  lemma StandardVerseFits(ayah: Ayah, ws: seq<Word>, dice: Dice)
    ensures VerseBuildersFit(Standard(ayah, ws, dice), ayah, ws)
  {
    if |ws| >= 2 {
      PartialFits(ayah, ws, dice, AudioEnd(|ws|));
    }
    VerseArabicFits(ayah, ws, dice, PartialEnd(|ws|));
    VerseTransliterationFits(ayah, ws, dice, PartialEnd(|ws|) + 1);
  }

  /** The builders of `generateLessonPlan` each make the question the layout puts in their slot. */
  lemma StandardFits(ayah: Ayah, ws: seq<Word>, dice: Dice)
    ensures BuildersFit(Standard(ayah, ws, dice), ayah, ws)
  {
    StandardWordsFit(ayah, ws, dice);
    StandardReverseFits(ayah, ws, dice);
    StandardCombineFits(ayah, ws, dice);
    StandardAudioFits(ayah, ws, dice);
    StandardVerseFits(ayah, ws, dice);
  }

  /**
   * The generator follows the layout: question `k` of a lesson over `ws` is
   * the one the layout puts at `k`, and carries the message `MessageAt` gives.
   */
  lemma QuestionAt(ayah: Ayah, ws: seq<Word>, dice: Dice, k: nat)
    requires k < QuestionCount(|ws|)
    ensures |Questions(ayah, ws, dice)| == QuestionCount(|ws|)
    ensures Placed(Questions(ayah, ws, dice)[k], ayah, ws, k)
    ensures Questions(ayah, ws, dice)[k].celebrationMessage == MessageAt(|ws|, k)
  {
    StandardFits(ayah, ws, dice);
    LayoutAt(ayah, ws, Standard(ayah, ws, dice), k);
  }
}
