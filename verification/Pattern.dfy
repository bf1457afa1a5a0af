/**
 Search patterns: the RDAP wildcard pattern, its translation to SQL LIKE, and the
 in-memory matcher.  `Glob` is the reference meaning of a pattern in which every
 `*` stands for any string.

 Lower-casing is a parameter: any map on characters that meets `CaseFolding`,
 of which `AsciiLower` is one.
 */
module Pattern {
  import opened Text

  predicate Meta(c: char) { c == '%' || c == '_' || c == '\\' }

  ghost predicate CaseFolding(lower: char -> char) {
    && (forall c :: lower(lower(c)) == lower(c))
    && (forall c :: (Meta(c) || c == '*') ==> lower(c) == c)
    && (forall c :: (Meta(lower(c)) || lower(c) == '*') ==> lower(c) == c)
  }

  lemma AsciiFolds()
    ensures CaseFolding(AsciiLower)
  {}

  function Code(c: char): string {
    if c == '*' then "%" else if Meta(c) then ['\\', c] else [c]
  }

  function Translate(p: string): string {
    if p == [] then [] else Code(p[0]) + Translate(p[1..])
  }

  function LikePattern(lower: char -> char, p: string): string {
    Fold(lower, Translate(p))
  }

  lemma {:induction false} TranslateSnoc(p: string, c: char)
    ensures Translate(p + [c]) == Translate(p) + Code(c)
  {
    if p == [] {
      assert p + [c] == [c];
    } else {
      TranslateSnoc(p[1..], c);
      assert (p + [c])[1..] == p[1..] + [c];
    }
  }

  method IlikePattern(lower: char -> char, input: string) returns (out: string)
    ensures out == LikePattern(lower, input)
  {
    var b: string := [];
    for i := 0 to |input|
      invariant b == Translate(input[..i])
    {
      var r := input[i];
      assert input[..i+1] == input[..i] + [r];
      TranslateSnoc(input[..i], r);
      if r == '*' {
        b := b + "%";
      } else if r == '%' || r == '_' || r == '\\' {
        b := b + ['\\', r];
      } else {
        b := b + [r];
      }
    }
    assert input[..|input|] == input;
    out := Fold(lower, b);
  }

  /* ------------------------------------------------------------------ */
  /* LIKE against the glob                                               */
  /* ------------------------------------------------------------------ */

  /** No escape character is left without a character to escape. */
  predicate WellFormed(p: string) {
    p == [] || (if p[0] == '\\' then |p| >= 2 && WellFormed(p[2..]) else WellFormed(p[1..]))
  }

  predicate Like(s: string, p: string)
    requires WellFormed(p)
    decreases |s| + |p|
  {
    if p == [] then s == []
    else if p[0] == '%' then Like(s, p[1..]) || (s != [] && Like(s[1..], p))
    else if p[0] == '_' then s != [] && Like(s[1..], p[1..])
    else if p[0] == '\\' then s != [] && s[0] == p[1] && Like(s[1..], p[2..])
    else s != [] && s[0] == p[0] && Like(s[1..], p[1..])
  }

  /** The two wildcards of LIKE and its escape. */
  lemma LikeWildcards(s: string, c: char)
    ensures Like(s, "_") <==> |s| == 1
    ensures Like(s, "%")
    ensures WellFormed(['\\', c]) && (Like(s, ['\\', c]) <==> s == [c])
  {
    LikeAll(s);
    assert ['\\', c][2..] == [] && "_"[1..] == [];
    if |s| == 1 {
      assert s[1..] == [];
    }
  }

  lemma {:induction false} LikeAll(s: string)
    ensures Like(s, "%")
  {
    if s != [] {
      LikeAll(s[1..]);
    }
  }

  predicate Glob(s: string, p: string)
    decreases |s| + |p|
  {
    if p == [] then s == []
    else if p[0] == '*' then Glob(s, p[1..]) || (s != [] && Glob(s[1..], p))
    else s != [] && s[0] == p[0] && Glob(s[1..], p[1..])
  }

  lemma FoldCode(lower: char -> char, c: char, rest: string)
    requires CaseFolding(lower)
    ensures Fold(lower, Code(c) + rest) == Code(lower(c)) + Fold(lower, rest)
    ensures Code(lower(c)) == if c == '*' then "%" else if Meta(c) then ['\\', c] else [lower(c)]
  {
    if Meta(c) {
      assert Code(c) + rest == ['\\'] + ([c] + rest);
      FoldCons(lower, '\\', [c] + rest);
      FoldCons(lower, c, rest);
    } else {
      FoldCons(lower, Code(c)[0], rest);
    }
  }

  lemma FoldCons(lower: char -> char, c: char, rest: string)
    ensures Fold(lower, [c] + rest) == [lower(c)] + Fold(lower, rest)
  {
    assert ([c] + rest)[1..] == rest;
  }

  /** The translated pattern never ends in a dangling escape. */
  lemma {:induction false} TranslationWellFormed(lower: char -> char, p: string)
    requires CaseFolding(lower)
    ensures WellFormed(LikePattern(lower, p))
  {
    if p != [] {
      TranslationWellFormed(lower, p[1..]);
      FoldCode(lower, p[0], Translate(p[1..]));
      var rest := Fold(lower, Translate(p[1..]));
      if Meta(p[0]) {
        assert (['\\', p[0]] + rest)[2..] == rest;
      }
    }
  }

  /** For every pattern and every string, LIKE with the translated pattern
      accepts exactly what the lower-cased glob accepts. */
  lemma {:induction false} LikeIsGlob(lower: char -> char, s: string, p: string)
    requires CaseFolding(lower)
    ensures WellFormed(LikePattern(lower, p))
    ensures Like(s, LikePattern(lower, p)) == Glob(s, Fold(lower, p))
    decreases |s| + |p|
  {
    TranslationWellFormed(lower, p);
    if p != [] {
      TranslationWellFormed(lower, p[1..]);
      FoldCode(lower, p[0], Translate(p[1..]));
      var like, glob := LikePattern(lower, p), Fold(lower, p);
      var rest := LikePattern(lower, p[1..]);
      assert like == Code(lower(p[0])) + rest;
      assert glob[1..] == Fold(lower, p[1..]);
      if p[0] == '*' {
        assert like[1..] == rest;
        LikeIsGlob(lower, s, p[1..]);
        if s != [] {
          LikeIsGlob(lower, s[1..], p);
        }
      } else {
        assert if Meta(p[0]) then like[2..] == rest && like[1] == p[0] else like[1..] == rest;
        if s != [] {
          LikeIsGlob(lower, s[1..], p[1..]);
        }
      }
    }
  }

  /* ------------------------------------------------------------------ */
  /* The in-memory matcher against the glob                              */
  /* ------------------------------------------------------------------ */

  predicate HasSuffix(h: string, c: string) { |c| <= |h| && h[|h|-|c|..] == c }

  predicate Contains(h: string, c: string) { exists k :: 0 <= k <= |h| && c <= h[k..] }

  /** The literal part of a pattern: one edge star stripped from each side. */
  function Core(pattern: string): string {
    if pattern == "" then ""
    else
      var core := if pattern[0] == '*' then pattern[1..] else pattern;
      if pattern[|pattern|-1] == '*' && |core| > 0 then core[..|core|-1] else core
  }

  predicate MatchPattern(h: string, pattern: string) {
    if pattern == "" then h == ""
    else
      var first, last := pattern[0] == '*', pattern[|pattern|-1] == '*';
      if first && last then Contains(h, Core(pattern))
      else if first then HasSuffix(h, Core(pattern))
      else if last then Core(pattern) <= h
      else h == pattern
  }

  lemma {:induction false} GlobLiteral(h: string, q: string)
    requires '*' !in q
    ensures Glob(h, q) <==> h == q
  {
    if q != [] && h != [] {
      GlobLiteral(h[1..], q[1..]);
      assert h == [h[0]] + h[1..] && q == [q[0]] + q[1..];
    }
  }

  lemma {:induction false} GlobAll(h: string)
    ensures Glob(h, "*")
  {
    if h != [] {
      GlobAll(h[1..]);
    }
  }

  lemma {:induction false} GlobPrefix(h: string, q: string)
    requires '*' !in q
    ensures Glob(h, q + "*") <==> q <= h
  {
    if q == [] {
      GlobAll(h);
      assert q + "*" == "*";
    } else if h != [] {
      GlobPrefix(h[1..], q[1..]);
      assert (q + "*")[1..] == q[1..] + "*";
      assert h == [h[0]] + h[1..] && q == [q[0]] + q[1..];
    }
  }

  lemma {:induction false} GlobStarFrom(h: string, q: string, k: nat)
    requires k <= |h| && Glob(h[k..], q)
    ensures Glob(h, "*" + q)
  {
    assert ("*" + q)[1..] == q;
    if k == 0 {
      assert h[0..] == h;
    } else {
      assert h[1..][k-1..] == h[k..];
      GlobStarFrom(h[1..], q, k - 1);
    }
  }

  lemma {:induction false} GlobStarAt(h: string, q: string) returns (k: nat)
    requires Glob(h, "*" + q)
    ensures k <= |h| && Glob(h[k..], q)
    decreases |h|
  {
    assert ("*" + q)[1..] == q;
    if Glob(h, q) {
      k := 0;
      assert h[0..] == h;
    } else {
      k := GlobStarAt(h[1..], q);
      assert h[1..][k..] == h[k+1..];
      k := k + 1;
    }
  }

  lemma GlobStar(h: string, q: string)
    ensures Glob(h, "*" + q) <==> exists k :: 0 <= k <= |h| && Glob(h[k..], q)
  {
    hide Glob;
    if Glob(h, "*" + q) {
      var k := GlobStarAt(h, q);
    }
    if k :| 0 <= k <= |h| && Glob(h[k..], q) {
      GlobStarFrom(h, q, k);
    }
  }

  lemma GlobContains(h: string, core: string)
    requires '*' !in core
    ensures Glob(h, "*" + core + "*") <==> Contains(h, core)
  {
    assert "*" + core + "*" == "*" + (core + "*");
    GlobStar(h, core + "*");
    forall k | 0 <= k <= |h| ensures Glob(h[k..], core + "*") <==> core <= h[k..] {
      GlobPrefix(h[k..], core);
    }
  }

  lemma GlobSuffix(h: string, core: string)
    requires '*' !in core
    ensures Glob(h, "*" + core) <==> HasSuffix(h, core)
  {
    GlobStar(h, core);
    forall k | 0 <= k <= |h| ensures Glob(h[k..], core) <==> h[k..] == core {
      GlobLiteral(h[k..], core);
    }
    if HasSuffix(h, core) {
      assert Glob(h[|h|-|core|..], core);
    }
  }

  /** A pattern with no star in its core means the same to both. */
  lemma EdgeStarsAgree(h: string, p: string)
    requires '*' !in Core(p)
    ensures MatchPattern(h, p) == Glob(h, p)
  {
    if p != "" {
      var core := Core(p);
      var first, last := p[0] == '*', p[|p|-1] == '*';
      if p == "*" {
        GlobAll(h);
        assert core <= h[0..];
      } else if first && last {
        assert p == "*" + core + "*";
        GlobContains(h, core);
      } else if first {
        assert p == "*" + core;
        GlobSuffix(h, core);
      } else if last {
        assert p == core + "*";
        GlobPrefix(h, core);
      } else {
        GlobLiteral(h, p);
      }
    }
  }

  function Starless(p: string): string {
    if p == [] then []
    else if p[0] == '*' then Starless(p[1..])
    else [p[0]] + Starless(p[1..])
  }

  lemma {:induction false} StarlessGlob(p: string)
    ensures Glob(Starless(p), p)
  {
    if p != [] {
      StarlessGlob(p[1..]);
      if p[0] != '*' {
        assert Starless(p)[1..] == Starless(p[1..]);
      }
    }
  }

  lemma {:induction false} StarlessShort(p: string)
    ensures |Starless(p)| <= |p| && ('*' in p ==> |Starless(p)| < |p|)
  {
    if p != [] {
      StarlessShort(p[1..]);
    }
  }

  lemma {:induction false} StarlessSnoc(p: string)
    ensures Starless(p + "*") == Starless(p)
  {
    if p == [] {
      assert p + "*" == "*";
    } else {
      StarlessSnoc(p[1..]);
      assert (p + "*")[1..] == p[1..] + "*";
    }
  }

  lemma StarlessCore(p: string)
    ensures Starless(p) == Starless(Core(p))
  {
    if p != "" {
      var core := if p[0] == '*' then p[1..] else p;
      if p[|p|-1] == '*' && |core| > 0 {
        assert core == core[..|core|-1] + "*";
        StarlessSnoc(core[..|core|-1]);
      }
    }
  }

  /** An inner star separates them: the pattern without its stars is in the
      glob but too short for the matcher. */
  lemma InnerStarDiffers(p: string)
    requires '*' in Core(p)
    ensures Glob(Starless(p), p) && !MatchPattern(Starless(p), p)
  {
    StarlessGlob(p);
    StarlessCore(p);
    StarlessShort(Core(p));
  }

  /** The matcher is the glob exactly for patterns without an inner star. */
  lemma MatchIsGlobIff(p: string)
    ensures (forall h :: MatchPattern(h, p) == Glob(h, p)) <==> '*' !in Core(p)
  {
    if '*' in Core(p) {
      InnerStarDiffers(p);
    } else {
      forall h ensures MatchPattern(h, p) == Glob(h, p) {
        EdgeStarsAgree(h, p);
      }
    }
  }

  lemma FoldFixed(fold: char -> char, s: string)
    requires forall i :: 0 <= i < |s| ==> fold(s[i]) == s[i]
    ensures Fold(fold, s) == s
  {
    forall i | 0 <= i < |s| ensures Fold(fold, s)[i] == s[i] {
      FoldAt(fold, s, i);
    }
  }

  lemma CoreMembers(q: string)
    ensures forall c :: c in Core(q) ==> c in q
    ensures q != "" && q != "*" && q != "**" ==> Core(q) != ""
  {}

  /** The literal part of a pattern is accepted by the pattern. */
  lemma CoreMatches(q: string)
    ensures MatchPattern(Core(q), q)
  {
    var core := Core(q);
    assert core <= core[0..];
  }

  lemma {:induction false} FoldTwice(lower: char -> char, s: string)
    requires CaseFolding(lower)
    ensures Fold(lower, Fold(lower, s)) == Fold(lower, s)
  {
    if s != [] {
      FoldTwice(lower, s[1..]);
    }
  }

  lemma {:induction false} FoldStarless(lower: char -> char, s: string)
    requires CaseFolding(lower) && Fold(lower, s) == s
    ensures Fold(lower, Starless(s)) == Starless(s)
  {
    if s != [] {
      assert Fold(lower, s)[1..] == s[1..];
      FoldStarless(lower, s[1..]);
      if s[0] != '*' {
        assert Starless(s)[1..] == Starless(s[1..]);
      }
    }
  }

  /** The two back-ends, on stored names that are lower-case: SQL LIKE on the
      translated pattern and the in-memory matcher on the lower-cased one give the
      same answers exactly when the pattern has no inner star. */
  lemma BackendsAgreeIff(lower: char -> char, p: string)
    requires CaseFolding(lower)
    ensures WellFormed(LikePattern(lower, p))
    ensures (forall name | Fold(lower, name) == name ::
               Like(name, LikePattern(lower, p)) == MatchPattern(Fold(lower, name), Fold(lower, p)))
            <==> '*' !in Core(Fold(lower, p))
  {
    var q := Fold(lower, p);
    TranslationWellFormed(lower, p);
    forall name ensures Like(name, LikePattern(lower, p)) == Glob(name, q) {
      LikeIsGlob(lower, name, p);
    }
    if '*' in Core(q) {
      FoldTwice(lower, p);
      FoldStarless(lower, q);
      InnerStarDiffers(q);
    } else {
      forall name ensures MatchPattern(name, q) == Glob(name, q) {
        EdgeStarsAgree(name, q);
      }
    }
  }

  /* ------------------------------------------------------------------ */
  /* Columns that are not kept lower-case                                */
  /* ------------------------------------------------------------------ */

  /** No other character has this one as its lower case. */
  ghost predicate Caseless(lower: char -> char, c: char) {
    forall x :: lower(x) == c ==> x == c
  }

  ghost predicate CaselessText(lower: char -> char, s: string) {
    forall i :: 0 <= i < |s| ==> Caseless(lower, s[i])
  }

  lemma CaselessFold(lower: char -> char, h: string, core: string)
    requires CaselessText(lower, core) && Fold(lower, core) == core
    ensures Fold(lower, h) == core <==> h == core
  {
    if Fold(lower, h) == core {
      forall i | 0 <= i < |h| ensures h[i] == core[i] {
        FoldAt(lower, h, i);
        assert Caseless(lower, core[i]);
      }
    }
  }

  lemma CaselessPart(lower: char -> char, h: string, core: string, i: nat)
    requires CaselessText(lower, core) && Fold(lower, core) == core && i <= |h|
    ensures core <= Fold(lower, h)[i..] <==> core <= h[i..]
  {
    if i + |core| <= |h| {
      var j := i + |core|;
      FoldSlice(lower, h, i, j);
      CaselessFold(lower, h[i..j], core);
      assert Fold(lower, h)[i..][..|core|] == Fold(lower, h)[i..j];
      assert h[i..][..|core|] == h[i..j];
    }
  }

  /** A pattern with a caseless core does not see the case of a name. */
  lemma CaselessMatch(lower: char -> char, h: string, q: string)
    requires CaselessText(lower, Core(q)) && Fold(lower, Core(q)) == Core(q)
    ensures MatchPattern(Fold(lower, h), q) == MatchPattern(h, q)
  {
    var core, f := Core(q), Fold(lower, h);
    forall k | 0 <= k <= |h| ensures core <= f[k..] <==> core <= h[k..] {
      CaselessPart(lower, h, core, k);
    }
    assert f[0..] == f && h[0..] == h;
    CaselessFold(lower, h, core);
    if |core| <= |h| {
      var k := |h| - |core|;
      assert core <= f[k..] <==> f[k..] == core;
      assert core <= h[k..] <==> h[k..] == core;
    }
  }

  /** A name of the length of the core is matched only if it is the core. */
  lemma OnlyCoreFits(h: string, q: string)
    requires |h| == |Core(q)| && MatchPattern(h, q)
    ensures h == Core(q)
  {
    if q != "" && q[0] == '*' && q[|q|-1] == '*' {
      var k :| 0 <= k <= |h| && Core(q) <= h[k..];
      assert k == 0 && h[0..] == h;
    }
  }

  lemma FoldUpdate(lower: char -> char, s: string, i: nat, x: char)
    requires i < |s| && lower(x) == lower(s[i])
    ensures Fold(lower, s[i := x]) == Fold(lower, s)
  {
    forall k | 0 <= k < |s| ensures Fold(lower, s[i := x])[k] == Fold(lower, s)[k] {
      FoldAt(lower, s, k);
      FoldAt(lower, s[i := x], k);
    }
  }

  lemma CoreFolded(lower: char -> char, p: string)
    requires CaseFolding(lower)
    ensures Fold(lower, Core(Fold(lower, p))) == Core(Fold(lower, p))
  {
    var q := Fold(lower, p);
    forall c | c in q ensures lower(c) == c {
      var i :| 0 <= i < |q| && q[i] == c;
      FoldAt(lower, p, i);
    }
    CoreMembers(q);
    FoldFixed(lower, Core(q));
  }

  /** For a cased core, a name that only the in-memory matcher accepts. */
  lemma CasedCoreDiffers(lower: char -> char, p: string) returns (name: string)
    requires CaseFolding(lower) && '*' !in Core(Fold(lower, p)) && !CaselessText(lower, Core(Fold(lower, p)))
    ensures MatchPattern(Fold(lower, name), Fold(lower, p)) && !Glob(name, Fold(lower, p))
  {
    var q := Fold(lower, p);
    var core := Core(q);
    CoreFolded(lower, p);
    var i :| 0 <= i < |core| && !Caseless(lower, core[i]);
    var x :| lower(x) == core[i] && x != core[i];
    name := core[i := x];
    assert lower(core[i]) == core[i];
    FoldUpdate(lower, core, i, x);
    CoreMatches(q);
    EdgeStarsAgree(name, q);
    assert name[i] != core[i];
    if MatchPattern(name, q) {
      OnlyCoreFits(name, q);
    }
  }

  /** The two back-ends on a column of any case, such as a full name, which SQL
      compares as it is stored and the in-memory matcher in lower case: they agree
      on all names exactly when the pattern's core has no star and no character
      with an upper case. */
  lemma BackendsAgreeOnAllNamesIff(lower: char -> char, p: string)
    requires CaseFolding(lower)
    ensures WellFormed(LikePattern(lower, p))
    ensures (forall name :: Like(name, LikePattern(lower, p)) == MatchPattern(Fold(lower, name), Fold(lower, p)))
            <==> '*' !in Core(Fold(lower, p)) && CaselessText(lower, Core(Fold(lower, p)))
  {
    var q := Fold(lower, p);
    TranslationWellFormed(lower, p);
    forall name ensures Like(name, LikePattern(lower, p)) == Glob(name, q) {
      LikeIsGlob(lower, name, p);
    }
    if '*' in Core(q) {
      FoldTwice(lower, p);
      FoldStarless(lower, q);
      InnerStarDiffers(q);
    } else if CaselessText(lower, Core(q)) {
      CoreFolded(lower, p);
      forall name ensures MatchPattern(Fold(lower, name), q) == Glob(name, q) {
        EdgeStarsAgree(name, q);
        CaselessMatch(lower, name, q);
      }
    } else {
      var name := CasedCoreDiffers(lower, p);
      assert Like(name, LikePattern(lower, p)) == Glob(name, q);
    }
  }

  /** On handles the in-memory matcher maps no case at all, so the back-ends agree
      on all handles exactly when the pattern has no inner star and is lower-case. */
  lemma BackendsAgreeOnHandlesIff(lower: char -> char, p: string)
    requires CaseFolding(lower)
    ensures WellFormed(LikePattern(lower, p))
    ensures (forall name :: Like(name, LikePattern(lower, p)) == MatchPattern(name, p))
            <==> '*' !in Core(p) && Fold(lower, p) == p
  {
    var q := Fold(lower, p);
    TranslationWellFormed(lower, p);
    forall name ensures Like(name, LikePattern(lower, p)) == Glob(name, q) {
      LikeIsGlob(lower, name, p);
    }
    CoreOfFold(lower, p);
    if '*' in Core(p) {
      StarlessGlob(q);
      StarlessCore(q);
      StarlessShort(Core(q));
      ShortNameFails(Starless(q), p);
      assert Like(Starless(q), LikePattern(lower, p)) == Glob(Starless(q), q);
    } else if q == p {
      forall name ensures MatchPattern(name, p) == Glob(name, q) {
        EdgeStarsAgree(name, p);
      }
    } else {
      CoreMatches(p);
      EdgeStarsAgree(Core(p), q);
      if MatchPattern(Core(p), q) {
        OnlyCoreFits(Core(p), q);
      }
      assert Like(Core(p), LikePattern(lower, p)) == Glob(Core(p), q);
    }
  }

  lemma ShortNameFails(h: string, p: string)
    requires |h| < |Core(p)|
    ensures !MatchPattern(h, p)
  {}

  /** Where the core of a pattern begins and ends. */
  function CoreStart(p: string): nat { if p != "" && p[0] == '*' then 1 else 0 }

  function CoreEnd(p: string): nat { if p != "" && p[|p|-1] == '*' && |p| > CoreStart(p) then |p| - 1 else |p| }

  lemma CoreIsSlice(p: string)
    ensures CoreStart(p) <= CoreEnd(p) <= |p| && Core(p) == p[CoreStart(p)..CoreEnd(p)]
  {}

  lemma FoldKeepsStars(lower: char -> char, p: string)
    requires CaseFolding(lower)
    ensures forall i :: 0 <= i < |p| ==> (Fold(lower, p)[i] == '*' <==> p[i] == '*')
    ensures '*' in Fold(lower, p) <==> '*' in p
  {
    forall i | 0 <= i < |p| ensures Fold(lower, p)[i] == '*' <==> p[i] == '*' {
      FoldAt(lower, p, i);
    }
    if '*' in p {
      var i :| 0 <= i < |p| && p[i] == '*';
      assert Fold(lower, p)[i] == '*';
    }
    if '*' in Fold(lower, p) {
      var i :| 0 <= i < |p| && Fold(lower, p)[i] == '*';
      assert p[i] == '*';
    }
  }

  /** Case folding keeps the stars, so it commutes with taking the core. */
  lemma CoreOfFold(lower: char -> char, p: string)
    requires CaseFolding(lower)
    ensures Core(Fold(lower, p)) == Fold(lower, Core(p))
    ensures '*' in Core(Fold(lower, p)) <==> '*' in Core(p)
    ensures Core(Fold(lower, p)) == Core(p) ==> Fold(lower, p) == p
  {
    var q := Fold(lower, p);
    FoldKeepsStars(lower, p);
    CoreIsSlice(p);
    CoreIsSlice(q);
    var i, j := CoreStart(p), CoreEnd(p);
    assert CoreStart(q) == i && CoreEnd(q) == j;
    FoldSlice(lower, p, i, j);
    FoldKeepsStars(lower, Core(p));
    if Core(q) == Core(p) {
      SameOutside(p, q, i, j);
    }
  }

  lemma SameOutside(p: string, q: string, i: nat, j: nat)
    requires |p| == |q| && i == CoreStart(p) == CoreStart(q) && j == CoreEnd(p) == CoreEnd(q)
    requires i <= j <= |p| && p[i..j] == q[i..j]
    ensures p == q
  {
    assert p == p[..i] + p[i..j] + p[j..];
    assert q == q[..i] + q[i..j] + q[j..];
  }
}
