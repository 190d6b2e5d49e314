/**
 * The JavaScript string operations the lesson generator relies on, stated over
 * `seq<char>`: `trim`, `includes`, `replace` with a string pattern (first
 * occurrence only), `split(' ')` / `join(' ')`, and the decimal rendering of a
 * non-negative integer in a template literal.
 */
module Text {
  import opened Wrappers

  /** The code points ECMAScript counts as WhiteSpace or LineTerminator, i.e. what `trim` strips. */
  predicate IsWhitespace(c: char) {
    || c == '\t' || c == '\n' || c == '\U{000B}' || c == '\U{000C}' || c == '\r'
    || c == ' ' || c == '\U{00A0}' || c == '\U{1680}'
    || ('\U{2000}' <= c <= '\U{200A}')
    || c == '\U{2028}' || c == '\U{2029}' || c == '\U{202F}' || c == '\U{205F}'
    || c == '\U{3000}' || c == '\U{FEFF}'
  }

  /** Every character is whitespace (the empty string included). */
  predicate IsBlank(s: string) {
    forall i | 0 <= i < |s| :: IsWhitespace(s[i])
  }

  /** The first index at or after `i` whose character is not whitespace, or `|s|` if there is none. */
  function SkipSpace(s: string, i: nat): (k: nat)
    requires i <= |s|
    ensures i <= k <= |s|
    ensures forall j | i <= j < k :: IsWhitespace(s[j])
    ensures k < |s| ==> !IsWhitespace(s[k])
    decreases |s| - i
  {
    if i == |s| || !IsWhitespace(s[i]) then i else SkipSpace(s, i + 1)
  }

  /** The index just past the last character before `j` that is not whitespace, or 0 if there is none. */
  function SkipSpaceBack(s: string, j: nat): (k: nat)
    requires j <= |s|
    ensures k <= j
    ensures forall i | k <= i < j :: IsWhitespace(s[i])
    ensures k > 0 ==> !IsWhitespace(s[k - 1])
  {
    if j == 0 || !IsWhitespace(s[j - 1]) then j else SkipSpaceBack(s, j - 1)
  }

  /** Where the trimmed text of `s` starts. */
  function TrimStart(s: string): nat {
    SkipSpace(s, 0)
  }

  /**
   * `String.prototype.trim`: `s` without its leading and trailing whitespace.
   * It is empty exactly when `s` is blank, and otherwise neither starts nor
   * ends with whitespace.
   */
  function Trim(s: string): (r: string)
    ensures |r| <= |s|
    ensures r == "" <==> IsBlank(s)
    ensures r != "" ==> !IsWhitespace(r[0]) && !IsWhitespace(r[|r| - 1])
  {
    var a, b := SkipSpace(s, 0), SkipSpaceBack(s, |s|);
    if a < b then s[a..b] else ""
  }

  /**
   * The trimmed text is the run of `s` that starts at `TrimStart(s)`, and
   * everything of `s` before and after that run is whitespace.
   */
  lemma TrimIsSlice(s: string)
    ensures TrimStart(s) + |Trim(s)| <= |s|
    ensures forall i | 0 <= i < |Trim(s)| :: Trim(s)[i] == s[TrimStart(s) + i]
    ensures forall i | 0 <= i < TrimStart(s) :: IsWhitespace(s[i])
    ensures forall i | TrimStart(s) + |Trim(s)| <= i < |s| :: IsWhitespace(s[i])
  {
    var a, b := SkipSpace(s, 0), SkipSpaceBack(s, |s|);
    if a < |s| {
      assert a < b;
    }
  }

  /** Trimming twice trims nothing more. */
  lemma TrimIdempotent(s: string)
    ensures Trim(Trim(s)) == Trim(s)
  {
    var r := Trim(s);
    if r != "" {
      assert SkipSpace(r, 0) == 0;
      assert SkipSpaceBack(r, |r|) == |r|;
      assert r[0..|r|] == r;
    }
  }

  /** `pat` occurs in `s` starting at index `i`. */
  predicate OccursAt(s: string, pat: string, i: nat) {
    i + |pat| <= |s| && s[i..i + |pat|] == pat
  }

  /** The first index at or after `from` where `pat` occurs in `s`, if any. */
  function FindFrom(s: string, pat: string, from: nat): (r: Option<nat>)
    ensures r.Some? ==> from <= r.value && OccursAt(s, pat, r.value)
    ensures forall k: nat | from <= k && (r.None? || k < r.value) :: !OccursAt(s, pat, k)
    decreases |s| - from
  {
    if from + |pat| > |s| then None
    else if OccursAt(s, pat, from) then Some(from)
    else FindFrom(s, pat, from + 1)
  }

  /** `s.indexOf(pat)`, with `None` for -1. */
  function IndexOf(s: string, pat: string): Option<nat> {
    FindFrom(s, pat, 0)
  }

  /** `s.includes(pat)`: `pat` occurs somewhere in `s`. */
  predicate Includes(s: string, pat: string)
    ensures Includes(s, pat) <==> exists k: nat :: OccursAt(s, pat, k)
  {
    IndexOf(s, pat).Some?
  }

  /**
   * `s.replace(from, to)` with a string pattern: only the first occurrence of
   * `from` is replaced; without one, `s` comes back unchanged.
   */
  function ReplaceFirst(s: string, from: string, to: string): (r: string)
    ensures !Includes(s, from) ==> r == s
    ensures Includes(s, from) ==> |r| == |s| - |from| + |to|
    ensures Includes(s, from) && |to| <= |from| && to != from ==> r != s
    ensures Includes(s, from) ==>
      var i := IndexOf(s, from).value;
      && (forall k: nat | k < i :: !OccursAt(s, from, k))
      && i + |from| <= |s|
      && r == s[..i] + to + s[i + |from|..]
  {
    match IndexOf(s, from)
    case None => s
    case Some(i) =>
      var r := s[..i] + to + s[i + |from|..];
      assert r[i..i + |to|] == to;
      r
  }

  /**
   * Every character of a replacement result comes from `s` or from `to`; and
   * replacing one character by one character keeps every other position.
   */
  lemma ReplaceFirstChars(s: string, from: string, to: string)
    ensures forall c :: c in ReplaceFirst(s, from, to) ==> c in s || c in to
    ensures |from| == 1 && |to| == 1 ==>
      |ReplaceFirst(s, from, to)| == |s| &&
      forall i | 0 <= i < |s| :: ReplaceFirst(s, from, to)[i] == s[i] || (s[i] == from[0] && ReplaceFirst(s, from, to)[i] == to[0])
  {
    if IndexOf(s, from).Some? {
      var i := IndexOf(s, from).value;
      var r := ReplaceFirst(s, from, to);
      assert r == s[..i] + to + s[i + |from|..];
      if |from| == 1 && |to| == 1 {
        assert s[i] == from[0] by { assert OccursAt(s, from, i); }
      }
    }
  }

  /** A one-character pattern occurs at `k` exactly when that character sits at `k`. */
  lemma OccursAtChar(s: string, c: char, k: nat)
    ensures OccursAt(s, [c], k) <==> k < |s| && s[k] == c
  {
    if k < |s| {
      assert s[k..k + 1] == [s[k]];
    }
  }

  /** Two texts of one length that hold `c` at the same positions find `c` at the same index. */
  lemma {:induction false} FindCharAgrees(s: string, t: string, c: char, from: nat)
    requires |s| == |t|
    requires forall k | 0 <= k < |s| :: s[k] == c <==> t[k] == c
    ensures FindFrom(s, [c], from) == FindFrom(t, [c], from)
    decreases |s| - from
  {
    if from + 1 <= |s| {
      OccursAtChar(s, c, from);
      OccursAtChar(t, c, from);
      FindCharAgrees(s, t, c, from + 1);
    }
  }

  /**
   * Replacing the first `c` by `d` changes exactly the position `IndexOf`
   * reports, and keeps every other character.
   */
  lemma ReplaceFirstChar(s: string, c: char, d: char)
    ensures |ReplaceFirst(s, [c], [d])| == |s|
    ensures forall k | 0 <= k < |s| ::
      ReplaceFirst(s, [c], [d])[k] == if IndexOf(s, [c]) == Some(k) then d else s[k]
  {
  }

  /** `s.split(' ')`: the maximal space-free pieces between the spaces of `s`; never empty. */
  function Split(s: string): (r: seq<string>)
    ensures |r| >= 1
    ensures forall i | 0 <= i < |r| :: ' ' !in r[i]
  {
    if |s| == 0 then [""]
    else
      var rest := Split(s[1..]);
      if s[0] == ' ' then [""] + rest
      else [[s[0]] + rest[0]] + rest[1..]
  }

  /** `xs.join(' ')`. */
  function Join(xs: seq<string>): string
  {
    if |xs| == 0 then ""
    else if |xs| == 1 then xs[0]
    else xs[0] + " " + Join(xs[1..])
  }

  /** Every piece is free of spaces, so `Join` does not merge or split it. */
  predicate SpaceFree(xs: seq<string>) {
    forall i | 0 <= i < |xs| :: ' ' !in xs[i]
  }

  /** Joining the pieces of a split gives back the string. */
  lemma {:induction false} JoinSplit(s: string)
    ensures Join(Split(s)) == s
    decreases |s|
  {
    if |s| > 0 {
      var rest := Split(s[1..]);
      JoinSplit(s[1..]);
      assert s == [s[0]] + s[1..];
      if s[0] == ' ' {
        assert Split(s) == [""] + rest;
        assert ([""] + rest)[1..] == rest;
        assert Join(Split(s)) == "" + " " + Join(rest);
      } else if |rest| == 1 {
        assert Split(s) == [[s[0]] + rest[0]];
        assert Join(rest) == rest[0];
      } else {
        var head, tail := [s[0]] + rest[0], rest[1..];
        assert Split(s) == [head] + tail;
        assert ([head] + tail)[1..] == tail;
        assert Join(Split(s)) == head + " " + Join(tail);
        assert Join(rest) == rest[0] + " " + Join(tail);
      }
    }
  }

  /** A space-free token followed by a space splits off as one piece. */
  lemma {:induction false} SplitToken(t: string, rest: string)
    requires ' ' !in t
    ensures Split(t + " " + rest) == [t] + Split(rest)
    ensures Split(t) == [t]
    decreases |t|
  {
    if |t| > 0 {
      SplitToken(t[1..], rest);
      assert (t + " " + rest)[1..] == t[1..] + " " + rest;
      assert [t[0]] + t[1..] == t;
    } else {
      assert t + " " + rest == " " + rest;
      assert (" " + rest)[1..] == rest;
    }
  }

  /** Splitting a join of space-free pieces gives back the pieces. */
  lemma {:induction false} SplitJoin(xs: seq<string>)
    requires |xs| >= 1 && SpaceFree(xs)
    ensures Split(Join(xs)) == xs
    decreases |xs|
  {
    if |xs| == 1 {
      SplitToken(xs[0], "");
    } else {
      SplitJoin(xs[1..]);
      SplitToken(xs[0], Join(xs[1..]));
      assert xs == [xs[0]] + xs[1..];
    }
  }

  /** Two joins of the same number of space-free pieces agree only if the pieces agree. */
  lemma JoinInjective(xs: seq<string>, ys: seq<string>)
    requires |xs| >= 1 && |ys| >= 1 && SpaceFree(xs) && SpaceFree(ys)
    ensures Join(xs) == Join(ys) <==> xs == ys
  {
    if Join(xs) == Join(ys) {
      SplitJoin(xs);
      SplitJoin(ys);
    }
  }

  /** The digit character for `d < 10`. */
  function DigitChar(d: nat): (c: char)
    requires d < 10
    ensures '0' <= c <= '9'
  {
    ('0' as int + d) as char
  }

  /** The value of a digit character. */
  function DigitValue(c: char): (d: nat)
    requires '0' <= c <= '9'
    ensures d < 10 && DigitChar(d) == c
  {
    c as int - '0' as int
  }

  predicate IsDigits(s: string) {
    forall i | 0 <= i < |s| :: '0' <= s[i] <= '9'
  }

  /** A non-negative integer as JavaScript renders it in a template literal: decimal, no leading zeros. */
  function Decimal(n: nat): (r: string)
    ensures |r| >= 1 && IsDigits(r)
    ensures |r| > 1 ==> r[0] != '0'
  {
    if n < 10 then [DigitChar(n)]
    else Decimal(n / 10) + [DigitChar(n % 10)]
  }

  /** The value of a digit string, most significant digit first. */
  function ParseDecimal(s: string): nat
    requires IsDigits(s)
  {
    if |s| == 0 then 0
    else ParseDecimal(s[..|s| - 1]) * 10 + DigitValue(s[|s| - 1])
  }

  /** Reading back the decimal rendering of `n` gives `n`. */
  lemma {:induction false} ParseDecimalInverts(n: nat)
    ensures ParseDecimal(Decimal(n)) == n
  {
    if n >= 10 {
      ParseDecimalInverts(n / 10);
      var d := Decimal(n);
      assert d[..|d| - 1] == Decimal(n / 10);
      assert DigitValue(d[|d| - 1]) == n % 10;
    }
  }

  /** Distinct numbers render as distinct strings. */
  lemma DecimalInjective(m: nat, n: nat)
    ensures Decimal(m) == Decimal(n) <==> m == n
  {
    if Decimal(m) == Decimal(n) {
      ParseDecimalInverts(m);
      ParseDecimalInverts(n);
    }
  }
}
