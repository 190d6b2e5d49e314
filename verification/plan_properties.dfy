/**
 * Properties of a generated lesson plan as a whole: when generation fails and
 * with which error, how the word filter behaves, and, for a plan that is
 * generated, its question count, distinct ids, non-decreasing difficulty,
 * well-formed options, stroke total, milestone list and messages.
 */
module PlanProperties {
  import opened Wrappers
  import opened Text
  import opened LessonTypes
  import opened Options
  import opened LessonGenerator
  import opened LessonProperties

  // ---------------------------------------------------------------------------
  // Validation
  // ---------------------------------------------------------------------------

  /** Filtering distributes over concatenation: the kept words stay in their original order. */
  lemma {:induction false} UsableWordsAppend(a: seq<Word>, b: seq<Word>)
    ensures UsableWords(a + b) == UsableWords(a) + UsableWords(b)
    decreases |a|
  {
    if |a| == 0 {
      assert a + b == b;
    } else {
      assert (a + b)[1..] == a[1..] + b;
      UsableWordsAppend(a[1..], b);
    }
  }

  /** A single word is kept exactly when it is usable. */
  lemma UsableWordsSingle(w: Word)
    ensures UsableWords([w]) == if Usable(w) then [w] else []
  {
    assert [w][1..] == [];
  }

  /** Filtering the kept words again keeps all of them. */
  lemma {:induction false} UsableWordsIdempotent(words: seq<Word>)
    ensures UsableWords(UsableWords(words)) == UsableWords(words)
    decreases |words|
  {
    if |words| > 0 {
      var head := if Usable(words[0]) then [words[0]] else [];
      UsableWordsIdempotent(words[1..]);
      UsableWordsAppend(head, UsableWords(words[1..]));
      if Usable(words[0]) {
        UsableWordsSingle(words[0]);
      }
    }
  }

  /**
   * Generation fails exactly when the ayah is missing or no word is usable,
   * and the error is the invalid-input one exactly when the ayah is missing
   * or the word list is empty.
   */
  lemma GenerationFails(ayah: Option<Ayah>, words: seq<Word>, dice: Dice)
    ensures GenerateLessonPlan(ayah, words, dice).Failure? <==>
      ayah.None? || forall i | 0 <= i < |words| :: !Usable(words[i])
    ensures GenerateLessonPlan(ayah, words, dice).Failure? ==>
      (GenerateLessonPlan(ayah, words, dice).error == InvalidInput <==> ayah.None? || |words| == 0)
  {
    var kept := UsableWords(words);
    if kept != [] {
      assert kept[0] in words;
    } else {
      forall i | 0 <= i < |words|
        ensures !Usable(words[i])
      {
        assert words[i] !in kept;
      }
    }
  }

  // ---------------------------------------------------------------------------
  // Every question follows the layout
  // ---------------------------------------------------------------------------

  /**
   * `qs` is laid out as a lesson over `ws`: it has the layout's number of
   * questions, each question is the one the layout puts at its position, and
   * each carries the message `MessageAt` gives for that position.
   */
  predicate LaidOut(qs: seq<Question>, ayah: Ayah, ws: seq<Word>) {
    && |qs| == QuestionCount(|ws|)
    && forall k | 0 <= k < |qs| :: Placed(qs[k], ayah, ws, k) && qs[k].celebrationMessage == MessageAt(|ws|, k)
  }

  /** The generated questions are laid out: `QuestionAt` at every position. */
  lemma QuestionsLaidOut(ayah: Ayah, ws: seq<Word>, dice: Dice)
    ensures LaidOut(Questions(ayah, ws, dice), ayah, ws)
  {
    QuestionAt(ayah, ws, dice, 0);
    forall k | 0 <= k < QuestionCount(|ws|)
      ensures Placed(Questions(ayah, ws, dice)[k], ayah, ws, k)
      ensures Questions(ayah, ws, dice)[k].celebrationMessage == MessageAt(|ws|, k)
    {
      QuestionAt(ayah, ws, dice, k);
    }
  }

  /**
   * `plan` is a lesson plan for `ayah` over the usable words `ws`: at least one
   * word, its questions laid out over them, and the plan's verse key, count,
   * stroke total and milestone list as `generateLessonPlan` fills them in.
   */
  predicate PlanOver(plan: LessonPlan, ayah: Ayah, ws: seq<Word>) {
    && |ws| >= 1
    && LaidOut(plan.questions, ayah, ws)
    && plan.verseKey == VerseKey(ayah)
    && plan.totalQuestions == |plan.questions|
    && plan.totalStrokes == TotalStrokes(plan.questions)
    && plan.celebrationMilestones == [5, 10, 15, plan.totalStrokes]
  }

  /** A generated plan is a plan for the ayah over its usable words. */
  lemma PlanLaidOut(ayah: Option<Ayah>, words: seq<Word>, dice: Dice)
    requires GenerateLessonPlan(ayah, words, dice).Success?
    ensures ayah.Some? && PlanOver(GenerateLessonPlan(ayah, words, dice).value, ayah.value, UsableWords(words))
  {
    QuestionsLaidOut(ayah.value, UsableWords(words), dice);
  }

  /**
   * A plan over `n` usable words has 2n + min(3, n) + min(2, n) + 2 questions,
   * two more when n >= 2: 6 for one word, 17 for four.
   */
  lemma PlanQuestionCount(plan: LessonPlan, ayah: Ayah, ws: seq<Word>)
    requires PlanOver(plan, ayah, ws)
    ensures plan.totalQuestions ==
      2 * |ws| + Min(3, |ws|) + Min(2, |ws|) + 2 + (if |ws| >= 2 then 2 else 0)
    ensures |ws| == 1 ==> plan.totalQuestions == 6
    ensures |ws| == 4 ==> plan.totalQuestions == 17
  {
  }

  // ---------------------------------------------------------------------------
  // Ids, difficulty and options
  // ---------------------------------------------------------------------------

  /** Question ids "q1", "q2", ... differ for different positions. */
  lemma QuestionIdInjective(i: nat, j: nat)
    ensures QuestionId(i) == QuestionId(j) <==> i == j
  {
    if QuestionId(i) == QuestionId(j) {
      assert Decimal(i + 1) == QuestionId(i)[1..];
      assert Decimal(j + 1) == QuestionId(j)[1..];
      DecimalInjective(i + 1, j + 1);
    }
  }

  /** In a laid-out lesson question `k` has id "q(k+1)", so no two questions share an id. */
  lemma IdsDistinct(qs: seq<Question>, ayah: Ayah, ws: seq<Word>)
    requires LaidOut(qs, ayah, ws)
    ensures forall k | 0 <= k < |qs| :: qs[k].id == QuestionId(k)
    ensures forall i, j | 0 <= i < j < |qs| :: qs[i].id != qs[j].id
  {
    forall i, j | 0 <= i < j < |qs|
      ensures qs[i].id != qs[j].id
    {
      QuestionIdInjective(i, j);
    }
  }

  /** The tier of a position: easy through phase 1, medium through phase 4, hard after. */
  lemma TierByPosition(n: nat, k: nat)
    requires k < QuestionCount(n)
    ensures TierOf(SlotAt(n, k)) ==
      if k < WordsEnd(n) then Easy else if k < AudioEnd(n) then Medium else Hard
  {
  }

  /** Difficulty never decreases along a laid-out lesson. */
  lemma DifficultyNonDecreasing(qs: seq<Question>, ayah: Ayah, ws: seq<Word>)
    requires LaidOut(qs, ayah, ws)
    ensures forall i, j | 0 <= i <= j < |qs| :: qs[i].difficulty.Rank() <= qs[j].difficulty.Rank()
  {
    forall i, j | 0 <= i <= j < |qs|
      ensures qs[i].difficulty.Rank() <= qs[j].difficulty.Rank()
    {
      TierByPosition(|ws|, i);
      TierByPosition(|ws|, j);
    }
  }

  /**
   * Every question of a laid-out lesson has three options with ids a, b, c,
   * exactly one correct, the correct one showing the answer; a question that
   * asks for a transliteration also has three different option texts.
   */
  lemma OptionsWellFormed(qs: seq<Question>, ayah: Ayah, ws: seq<Word>)
    requires LaidOut(qs, ayah, ws)
    ensures forall k | 0 <= k < |qs| ::
      && WellFormed(qs[k].options, qs[k].correctAnswer)
      && (AsksTransliteration(qs[k].kind) ==> DistinctTexts(qs[k].options))
  {
  }

  // ---------------------------------------------------------------------------
  // Strokes and milestones
  // ---------------------------------------------------------------------------

  /**
   * If a running count `g` grows by each question's reward, the rewards of
   * the first `k` questions add up to what it grew by.
   */
  lemma {:induction false} TotalFromSteps(qs: seq<Question>, g: nat -> nat, k: nat)
    requires k <= |qs|
    requires forall i | 0 <= i < |qs| :: g(i + 1) == g(i) + qs[i].strokesReward
    ensures TotalStrokes(qs[..k]) + g(0) == g(k)
  {
    if k > 0 {
      TotalFromSteps(qs, g, k - 1);
      var init := qs[..k - 1];
      assert qs[..k] == init + [qs[k - 1]];
      TotalStrokesAppend(init, [qs[k - 1]]);
      assert TotalStrokes([qs[k - 1]]) == qs[k - 1].strokesReward by {
        assert [qs[k - 1]][1..] == [];
      }
    }
  }

  /** The rewards of two lists add up. */
  lemma {:induction false} TotalStrokesAppend(a: seq<Question>, b: seq<Question>)
    ensures TotalStrokes(a + b) == TotalStrokes(a) + TotalStrokes(b)
    decreases |a|
  {
    if |a| == 0 {
      assert a + b == b;
    } else {
      assert (a + b)[1..] == a[1..] + b;
      TotalStrokesAppend(a[1..], b);
    }
  }

  /** The strokes of the first `k` positions of the layout, phase by phase. */
  function StrokesBefore(n: nat, k: nat): nat {
    if k <= ReverseEnd(n) then k
    else if k <= CombineEnd(n) then ReverseEnd(n) + 2 * (k - ReverseEnd(n))
    else if k <= AudioEnd(n) then ReverseEnd(n) + 2 * Pair(n) + 2 * (k - CombineEnd(n))
    else if k <= PartialEnd(n) then ReverseEnd(n) + 2 * Pair(n) + 2 * Min(2, n) + 3 * (k - AudioEnd(n))
    else ReverseEnd(n) + 5 * Pair(n) + 2 * Min(2, n) + 5 * (k - PartialEnd(n))
  }

  /** One more position adds its slot's reward. */
  lemma StrokesStep(n: nat, k: nat)
    requires k < QuestionCount(n)
    ensures StrokesBefore(n, k + 1) == StrokesBefore(n, k) + RewardOf(SlotAt(n, k))
  {
    var s := SlotAt(n, k);
    if k < ReverseEnd(n) {
      assert s.Read? || s.Select? || s.Reverse?;
    } else if k < CombineEnd(n) {
      assert s == Combine;
    } else if k < AudioEnd(n) {
      assert s.Audio?;
    } else if k < PartialEnd(n) {
      assert s == Partial;
    } else {
      assert s == VerseArabic || s == VerseTransliteration;
    }
  }

  /**
   * The stroke total of a lesson over `n` words: 2n + min(3, n) + 2 min(2, n)
   * + 10, plus 5 when n >= 2. It is at least 15 and exactly 15 for one word.
   */
  function LessonStrokes(n: nat): (r: nat)
    ensures n >= 1 ==> r >= 15 && (r == 15 <==> n == 1)
  {
    2 * n + Min(3, n) + 2 * Min(2, n) + 5 * Pair(n) + 10
  }

  /** A laid-out lesson totals `LessonStrokes` of its word count. */
  lemma LaidOutStrokes(qs: seq<Question>, ayah: Ayah, ws: seq<Word>)
    requires LaidOut(qs, ayah, ws)
    ensures TotalStrokes(qs) == LessonStrokes(|ws|)
  {
    var n := |ws|;
    forall i | 0 <= i < |qs|
      ensures StrokesBefore(n, i + 1) == StrokesBefore(n, i) + qs[i].strokesReward
    {
      StrokesStep(n, i);
    }
    TotalFromSteps(qs, k => StrokesBefore(n, k), |qs|);
    assert qs[..|qs|] == qs;
  }

  /**
   * A plan's stroke total is `LessonStrokes` of its word count, so at least
   * 15 and exactly 15 for one word; its milestone list is 5, 10, 15 and the
   * total, not deduplicated, which makes it non-decreasing with the total
   * last.
   */
  lemma PlanStrokes(plan: LessonPlan, ayah: Ayah, ws: seq<Word>)
    requires PlanOver(plan, ayah, ws)
    ensures plan.totalStrokes == LessonStrokes(|ws|)
    ensures plan.totalStrokes >= 15
    ensures plan.totalStrokes == 15 <==> |ws| == 1
    ensures |plan.celebrationMilestones| == 4
    ensures forall i, j | 0 <= i <= j < 4 :: plan.celebrationMilestones[i] <= plan.celebrationMilestones[j]
    ensures plan.celebrationMilestones[3] == plan.totalStrokes
  {
    LaidOutStrokes(plan.questions, ayah, ws);
  }

  // ---------------------------------------------------------------------------
  // Messages
  // ---------------------------------------------------------------------------

  /**
   * Where the messages of a lesson over `n >= 1` words land: the last two
   * positions say "almost done" and "mastered"; five strokes can only be at
   * position 4, and is there exactly when there are three or more words; ten
   * strokes can only be at position 9, and is there exactly when there are
   * five or more words, because for four words the "getting hard" warning
   * lands on position 9 and overwrites it; the warning sits at 70% of the
   * questions before phase 5, and nowhere else.
   */
  lemma MessagePositions(n: nat)
    requires n >= 1
    ensures QuestionCount(n) >= 6
    ensures MessageAt(n, QuestionCount(n) - 1) == Some(Mastered)
    ensures MessageAt(n, QuestionCount(n) - 2) == Some(AlmostDone)
    ensures forall k :: MessageAt(n, k) == Some(FiveStrokes) ==> k == 4
    ensures MessageAt(n, 4) == Some(FiveStrokes) <==> n >= 3
    ensures forall k :: MessageAt(n, k) == Some(TenStrokes) ==> k == 9
    ensures MessageAt(n, 9) == Some(TenStrokes) <==> n >= 5
    ensures forall k :: MessageAt(n, k) == Some(GettingHard) ==> k == HardIndex(AudioEnd(n))
    ensures MessageAt(n, HardIndex(AudioEnd(n))) == Some(GettingHard)
    ensures n == 4 ==> MessageAt(n, 9) == Some(GettingHard)
  {
    HardBeforeVerse(n);
    if n >= 3 {
      assert AudioEnd(n) == 2 * n + 6;
      assert HardIndex(AudioEnd(n)) >= 8;
    }
    if n >= 5 {
      assert HardIndex(AudioEnd(n)) >= 11;
    }
  }

  /** The messages of a laid-out lesson land where `MessagePositions` says. */
  lemma LaidOutMessages(qs: seq<Question>, ayah: Ayah, ws: seq<Word>)
    requires LaidOut(qs, ayah, ws) && |ws| >= 1
    ensures |qs| >= 6
    ensures qs[|qs| - 1].celebrationMessage == Some(Mastered)
    ensures qs[|qs| - 2].celebrationMessage == Some(AlmostDone)
    ensures forall k | 0 <= k < |qs| :: qs[k].celebrationMessage == Some(FiveStrokes) ==> k == 4
    ensures qs[4].celebrationMessage == Some(FiveStrokes) <==> |ws| >= 3
    ensures forall k | 0 <= k < |qs| :: qs[k].celebrationMessage == Some(TenStrokes) ==> k == 9
    ensures |ws| >= 2 ==> (qs[9].celebrationMessage == Some(TenStrokes) <==> |ws| >= 5)
    ensures forall k | 0 <= k < |qs| :: qs[k].celebrationMessage == Some(GettingHard) ==> k == HardIndex(AudioEnd(|ws|))
    ensures HardIndex(AudioEnd(|ws|)) < |qs| && qs[HardIndex(AudioEnd(|ws|))].celebrationMessage == Some(GettingHard)
    ensures |ws| == 4 ==> qs[9].celebrationMessage == Some(GettingHard)
  {
    MessagePositions(|ws|);
  }

  // ---------------------------------------------------------------------------
  // Verse key
  // ---------------------------------------------------------------------------

  /** The number of characters before the first colon of `s` (all of them if there is none). */
  function UpToColon(s: string): nat {
    if |s| == 0 || s[0] == ':' then 0 else 1 + UpToColon(s[1..])
  }

  /** In `p:q` with no colon in `p`, the first colon follows `p`. */
  lemma {:induction false} UpToColonOf(p: string, q: string)
    requires ':' !in p
    ensures UpToColon(p + ":" + q) == |p|
    decreases |p|
  {
    if |p| > 0 {
      assert (p + ":" + q)[1..] == p[1..] + ":" + q;
      UpToColonOf(p[1..], q);
    }
  }

  /** Two strings of the form `p:q` with no colon in `p` agree only if both halves agree. */
  lemma ColonSplit(p: string, q: string, r: string, t: string)
    requires ':' !in p && ':' !in r
    ensures p + ":" + q == r + ":" + t <==> p == r && q == t
  {
    var left, right := p + ":" + q, r + ":" + t;
    if left == right {
      UpToColonOf(p, q);
      UpToColonOf(r, t);
      assert p == left[..|p|];
      assert r == right[..|r|];
      assert q == left[|p| + 1..];
      assert t == right[|r| + 1..];
    }
  }

  /** The verse key "surah:ayah" tells verses apart: equal keys mean equal surah and verse numbers. */
  lemma VerseKeyInjective(a: Ayah, b: Ayah)
    ensures VerseKey(a) == VerseKey(b) <==> a.surahNo == b.surahNo && a.ayahNo == b.ayahNo
  {
    var x, y := Decimal(a.surahNo), Decimal(b.surahNo);
    assert ':' !in x;
    assert ':' !in y;
    ColonSplit(x, Decimal(a.ayahNo), y, Decimal(b.ayahNo));
    DecimalInjective(a.surahNo, b.surahNo);
    DecimalInjective(a.ayahNo, b.ayahNo);
  }
}
