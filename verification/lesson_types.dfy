/**
 * The records the lesson generator consumes and produces: a verse (`Ayah`),
 * its words, and the question options, questions and lesson plan built from
 * them. A JavaScript field that may be missing or falsy is a string whose
 * empty value stands for "missing", or an `Option` where the record leaves
 * the field out altogether.
 */
module LessonTypes {
  import opened Wrappers

  /** Which upstream service a word's data came from. */
  datatype Source = QuranCloud | OriginalApi

  /**
   * One word of a verse: its Arabic `text`, the transliteration of the
   * original word-by-word service (`transliteration.text`), the transliteration
   * of the alternative service (`quranCloudTransliteration`, empty when absent)
   * and the URL of its recitation.
   */
  datatype Word = Word(
    text: string,
    transliteration: string,
    source: Source,
    cloudTransliteration: string,
    audioUrl: string)

  /** The verse: its surah and verse numbers and the two Arabic renderings the services supply. */
  datatype Ayah = Ayah(surahNo: nat, ayahNo: nat, arabic1: string, arabic2: string)

  /** The three option ids, rendered as the source's 'a', 'b' and 'c'. */
  datatype OptionId = A | B | C {
    function Text(): string {
      match this
      case A => "a"
      case B => "b"
      case C => "c"
    }
  }

  datatype QuestionOption = QuestionOption(id: OptionId, text: string, isCorrect: bool)

  /** The prompt of a question; `Text()` renders it as the source's template literal does. */
  datatype Prompt =
    | HowToRead(arabic: string)
    | ChooseFor(arabic: string)
    | WriteInArabic(transliteration: string)
    | ClickWhatYouHear
    | WriteInTransliteration(arabic: string)
  {
    function Text(): string {
      match this
      case HowToRead(a) => "How do we read " + a + "?"
      case ChooseFor(a) => "Choose the correct option: " + a
      case WriteInArabic(t) => "Write this in Arabic: " + t
      case ClickWhatYouHear => "Click on what you hear:"
      case WriteInTransliteration(a) => "Write this in transliteration: " + a
    }
  }

  /** The celebration messages; `Text()` gives the message, its emoji written as code points. */
  datatype Milestone = FiveStrokes | TenStrokes | GettingHard | AlmostDone | Mastered {
    function Text(): string {
      match this
      case FiveStrokes => "Woah, five strokes unlocked! \U{1F389}"
      case TenStrokes => "You just unlocked 10 strokes! \U{1F31F}"
      case GettingHard => "Great! Attention! It's getting hard. \U{1F525}"
      case AlmostDone => "You're almost done! \U{1F4AA}"
      case Mastered => "\U{1F389} Congratulations! You've mastered this verse! \U{1F389}"
    }
  }

  datatype QuestionKind =
    | TransliterationToArabic
    | ArabicToTransliteration
    | AudioRecognition
    | WordSelection
    | CompleteVerse

  datatype Difficulty = Easy | Medium | Hard {
    /** Position in the easy < medium < hard progression. */
    function Rank(): nat {
      match this
      case Easy => 0
      case Medium => 1
      case Hard => 2
    }
  }

  datatype Question = Question(
    id: string,
    kind: QuestionKind,
    prompt: Prompt,
    correctAnswer: string,
    options: seq<QuestionOption>,
    audioUrl: Option<string>,
    difficulty: Difficulty,
    strokesReward: nat,
    celebrationMessage: Option<Milestone>,
    arabicText: Option<string>,
    transliterationText: Option<string>)

  datatype LessonPlan = LessonPlan(
    verseKey: string,
    totalQuestions: nat,
    questions: seq<Question>,
    totalStrokes: nat,
    celebrationMilestones: seq<nat>)

  /** Why a lesson could not be generated: the two `Error`s the generator throws. */
  datatype LessonError =
    | InvalidInput        // no ayah, or an empty word list
    | NoValidWords        // no word survived the filter

  /**
   * The order in which the three options A, B, C are presented. The
   * generator sorts them with a random comparator, which yields one of these six
   * arrangements; which one is left to the caller.
   */
  datatype Order = ABC | ACB | BAC | BCA | CAB | CBA

  /**
   * The outcomes of `Math.random()` the generator consumes, indexed by the
   * 0-based position of the question being built: the presentation order of
   * its options, the draw for each Fisher-Yates step of a word shuffle (step
   * `i` uses `shuffle(k)(i)`, reduced into 0..i), and the draw that picks the
   * character of a typo (reduced into the string's index range).
   */
  datatype Dice = Dice(order: nat -> Order, shuffle: nat -> nat -> nat, typo: nat -> nat)
}
