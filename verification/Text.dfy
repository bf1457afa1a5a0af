/** The string operations the model needs. */
module Text {
  function AsciiLower(c: char): char {
    if 'A' <= c <= 'Z' then (c as int + 32) as char else c
  }

  /** A string with every character mapped. */
  function Fold(lower: char -> char, s: string): (r: string)
    ensures |r| == |s|
  {
    if s == [] then [] else [lower(s[0])] + Fold(lower, s[1..])
  }

  function ToLower(s: string): string { Fold(AsciiLower, s) }

  function Until(s: string, c: char): string {
    if s == [] || s[0] == c then [] else [s[0]] + Until(s[1..], c)
  }

  /** Unicode white space. */
  predicate Space(c: char) {
    || '\t' <= c <= '\r' || c == ' ' || c == '\U{85}' || c == '\U{A0}' || c == '\U{1680}'
    || '\U{2000}' <= c <= '\U{200A}' || c == '\U{2028}' || c == '\U{2029}' || c == '\U{202F}' || c == '\U{205F}'
    || c == '\U{3000}'
  }

  function TrimLeft(s: string): string {
    if s != [] && Space(s[0]) then TrimLeft(s[1..]) else s
  }

  function TrimRight(s: string): string {
    if s != [] && Space(s[|s|-1]) then TrimRight(s[..|s|-1]) else s
  }

  function TrimSpace(s: string): string { TrimRight(TrimLeft(s)) }

  /* ------------------------------------------------------------------ */
  /* What they compute                                                   */
  /* ------------------------------------------------------------------ */

  /** The same letter but for its case. */
  predicate SameLetter(a: char, b: char) {
    || a == b
    || ('A' <= a <= 'Z' && b as int == a as int + 32)
    || ('A' <= b <= 'Z' && a as int == b as int + 32)
  }

  /** The same text but for the case of letters. */
  predicate SameText(s: string, t: string) {
    |s| == |t| && forall i :: 0 <= i < |s| ==> SameLetter(s[i], t[i])
  }

  lemma {:induction false} FoldAt(fold: char -> char, s: string, i: nat)
    requires i < |s|
    ensures Fold(fold, s)[i] == fold(s[i])
  {
    if i > 0 {
      FoldAt(fold, s[1..], i - 1);
    }
  }

  lemma FoldSlice(lower: char -> char, s: string, i: nat, j: nat)
    requires i <= j <= |s|
    ensures Fold(lower, s)[i..j] == Fold(lower, s[i..j])
  {
    hide Fold;
    forall k | 0 <= k < j - i ensures Fold(lower, s)[i..j][k] == Fold(lower, s[i..j])[k] {
      FoldAt(lower, s, i + k);
      FoldAt(lower, s[i..j], k);
    }
  }

  /** Lower-casing forgets the case of letters and nothing else. */
  lemma LowerIffSameText(s: string, t: string)
    ensures ToLower(s) == ToLower(t) <==> SameText(s, t)
  {
    forall i | 0 <= i < |s| && i < |t| ensures ToLower(s)[i] == ToLower(t)[i] <==> SameLetter(s[i], t[i]) {
      FoldAt(AsciiLower, s, i);
      FoldAt(AsciiLower, t, i);
    }
    if ToLower(s) == ToLower(t) {
      assert |s| == |t|;
    }
  }

  predicate NoCapitals(s: string) { forall i :: 0 <= i < |s| ==> !('A' <= s[i] <= 'Z') }

  lemma LowerFixed(s: string)
    requires NoCapitals(s)
    ensures ToLower(s) == s
  {
    forall i | 0 <= i < |s| ensures ToLower(s)[i] == s[i] {
      FoldAt(AsciiLower, s, i);
    }
  }

  /** Lower-casing gives a lower-case word exactly for the spellings of that word. */
  lemma LowerIs(s: string, word: string)
    requires NoCapitals(word)
    ensures ToLower(s) == word <==> SameText(s, word)
  {
    LowerFixed(word);
    LowerIffSameText(s, word);
  }

  /** In ASCII it is tab, the three line feeds, carriage return and blank. */
  lemma AsciiSpace(c: char)
    requires c as int < 128
    ensures Space(c) <==> c in ['\t', '\n', '\U{0B}', '\U{0C}', '\r', ' ']
  {}

  predicate AllSpace(s: string) { forall i :: 0 <= i < |s| ==> Space(s[i]) }

  /** No white space at either end. */
  predicate Tight(m: string) { m == "" || (!Space(m[0]) && !Space(m[|m|-1])) }

  lemma {:induction false} TrimLeftDrops(a: string, m: string)
    requires AllSpace(a) && (m == "" || !Space(m[0]))
    ensures TrimLeft(a + m) == m
  {
    if a == "" {
      assert a + m == m;
    } else {
      TrimLeftDrops(a[1..], m);
      assert (a + m)[1..] == a[1..] + m;
    }
  }

  lemma {:induction false} TrimRightDrops(m: string, b: string)
    requires AllSpace(b) && (m == "" || !Space(m[|m|-1]))
    ensures TrimRight(m + b) == m
  {
    if b == "" {
      assert m + b == m;
    } else {
      TrimRightDrops(m, b[..|b|-1]);
      assert (m + b)[..|m + b| - 1] == m + b[..|b|-1];
    }
  }

  /** Trimming takes the white space off both ends and nothing else. */
  lemma TrimSpaceDrops(a: string, m: string, b: string)
    requires AllSpace(a) && Tight(m) && AllSpace(b)
    ensures TrimSpace(a + m + b) == m
  {
    if m == "" {
      assert a + m + b == (a + b) + "";
      TrimLeftDrops(a + b, "");
    } else {
      assert a + m + b == a + (m + b);
      TrimLeftDrops(a, m + b);
      TrimRightDrops(m, b);
    }
  }

  lemma {:induction false} UntilStops(s: string, c: char, rest: string)
    requires c !in s
    ensures Until(s, c) == s && Until(s + [c] + rest, c) == s
  {
    if s != [] {
      UntilStops(s[1..], c, rest);
      assert (s + [c] + rest)[1..] == s[1..] + [c] + rest;
    }
  }
}
