/**
 * Option assembly, the step every option builder of the lesson generator ends
 * with: the correct answer becomes option A, the two wrong answers options
 * B and C, and the three are put into a caller-chosen presentation order.
 */
module Options {
  import opened LessonTypes

  /** 1 for an option marked correct, 0 otherwise. */
  function Mark(o: QuestionOption): nat {
    if o.isCorrect then 1 else 0
  }

  /** Three options whose ids are A, B and C, each once. */
  predicate IdsABC(opts: seq<QuestionOption>) {
    && |opts| == 3
    && opts[0].id != opts[1].id && opts[0].id != opts[2].id && opts[1].id != opts[2].id
  }

  /**
   * A well-formed option list for a question whose answer is `answer`: three
   * options with ids A, B, C in some order, exactly one of them correct,
   * and the correct one shows `answer`.
   */
  predicate WellFormed(opts: seq<QuestionOption>, answer: string) {
    && IdsABC(opts)
    && Mark(opts[0]) + Mark(opts[1]) + Mark(opts[2]) == 1
    && forall i | 0 <= i < |opts| :: opts[i].isCorrect ==> opts[i].text == answer
  }

  /** The three option texts are pairwise different. */
  predicate DistinctTexts(opts: seq<QuestionOption>) {
    && |opts| == 3
    && opts[0].text != opts[1].text
    && opts[0].text != opts[2].text
    && opts[1].text != opts[2].text
  }

  /** The options before they are put in presentation order. */
  function Unarranged(correct: string, wrong1: string, wrong2: string): seq<QuestionOption> {
    [ QuestionOption(A, correct, true),
      QuestionOption(B, wrong1, false),
      QuestionOption(C, wrong2, false) ]
  }

  /**
   * The options of a question in the presentation order `order`: well formed
   * for the correct answer, option b showing the first wrong answer and option
   * c the second, and with pairwise different texts exactly when the three
   * answers are pairwise different.
   */
  function Arrange(correct: string, wrong1: string, wrong2: string, order: Order): (r: seq<QuestionOption>)
    ensures WellFormed(r, correct)
    ensures forall i | 0 <= i < |r| :: r[i] in Unarranged(correct, wrong1, wrong2)
    ensures forall i | 0 <= i < |r| :: (r[i].id == B ==> r[i].text == wrong1) && (r[i].id == C ==> r[i].text == wrong2)
    ensures DistinctTexts(r) <==> correct != wrong1 && correct != wrong2 && wrong1 != wrong2
  {
    var a, b, c := QuestionOption(A, correct, true), QuestionOption(B, wrong1, false), QuestionOption(C, wrong2, false);
    match order
    case ABC => [a, b, c]
    case ACB => [a, c, b]
    case BAC => [b, a, c]
    case BCA => [b, c, a]
    case CAB => [c, a, b]
    case CBA => [c, b, a]
  }

  /** Any arrangement of three values holds those three values, each once. */
  lemma ThreeArranged<T>(a: T, b: T, c: T, r: seq<T>)
    requires r == [a, b, c] || r == [a, c, b] || r == [b, a, c] || r == [b, c, a] || r == [c, a, b] || r == [c, b, a]
    ensures multiset(r) == multiset{a, b, c}
  {
  }

  /** Arranging only reorders: the options are a permutation of the unarranged ones. */
  lemma ArrangePermutes(correct: string, wrong1: string, wrong2: string, order: Order)
    ensures multiset(Arrange(correct, wrong1, wrong2, order)) == multiset(Unarranged(correct, wrong1, wrong2))
  {
    var a, b, c := QuestionOption(A, correct, true), QuestionOption(B, wrong1, false), QuestionOption(C, wrong2, false);
    ThreeArranged(a, b, c, Arrange(correct, wrong1, wrong2, order));
    ThreeArranged(a, b, c, Unarranged(correct, wrong1, wrong2));
  }
}
