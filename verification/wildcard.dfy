/** The wildcard patterns of configuration files (`java.lang.*`, `*Math*`):
    how `WildcardNodeSet` turns a pattern into an anchored matcher, and a
    character-level glob reading of the same pattern that the compiled
    matcher is proved to agree with. A pattern's `.` stands for `/`, and each
    `*` matches any run of characters, `/` included, that holds no line
    terminator: the regex `.*` the constructor emits is compiled without
    DOTALL. */
module Wildcards {
  import opened JavaStrings

  /** One piece of the compiled matcher: a quoted literal or the regex `.*`. */
  datatype Token = Lit(text: string) | AnyRun

  const Star: char := '*'

  /** The pattern with every `.` replaced by `/`, as the constructor does
      before anything else. */
  function Normalize(pattern: string): (q: string)
    ensures |q| == |pattern|
    ensures forall i | 0 <= i < |q| :: q[i] != '.'
    ensures forall i | 0 <= i < |q| :: (q[i] == Star <==> pattern[i] == Star)
  {
    ReplaceChar(pattern, '.', '/')
  }

  predicate StarFree(s: string) {
    SepFree(s, {Star})
  }

  predicate LitsStarFree(ts: seq<Token>) {
    forall i | 0 <= i < |ts| :: ts[i].Lit? ==> StarFree(ts[i].text)
  }

  /** The body of the constructor's loop over all parts but the last: each
      non-empty part quoted, then `.*`. */
  function LoopTokens(parts: seq<string>): (ts: seq<Token>)
    ensures AllSepFree(parts, {Star}) ==> LitsStarFree(ts)
  {
    if |parts| == 0 then []
    else
      (if parts[0] != "" then [Lit(parts[0])] else []) + [AnyRun] + LoopTokens(parts[1..])
  }

  /** The matcher the constructor builds: `split` the normalised pattern on
      `*`; for all parts but the last, the quoted part (when non-empty) and
      `.*`; then the quoted last part, if there are parts at all; then one
      more `.*` when the original pattern is non-empty and ends in `*`. */
  function Compile(pattern: string): (ts: seq<Token>)
    ensures LitsStarFree(ts)
  {
    var parts := JavaSplit(Normalize(pattern), {Star});
    JavaSplitFacts(Normalize(pattern), {Star});
    var n := |parts|;
    (if n > 0 then LoopTokens(parts[..n - 1]) + [Lit(parts[n - 1])] else [])
    + (if |pattern| > 0 && pattern[|pattern| - 1] == Star then [AnyRun] else [])
  }

  /** Whole-string match of a compiled matcher (`Matcher.matches`). The
      `.*` token takes a run without line terminators. */
  predicate TokMatches(ts: seq<Token>, s: string)
    decreases |ts|
  {
    if |ts| == 0 then s == []
    else match ts[0]
      case Lit(t) => t <= s && TokMatches(ts[1..], s[|t|..])
      case AnyRun => exists k | 0 <= k <= |s| :: NoLineTerminator(s[..k]) && TokMatches(ts[1..], s[k..])
  }

  /** Reference reading of a normalised pattern: `*` matches any run without
      line terminators, every other character matches itself, and the whole
      string must be used. */
  predicate GlobMatches(g: string, s: string)
    decreases |g|
  {
    if |g| == 0 then s == []
    else if g[0] == Star then exists k | 0 <= k <= |s| :: NoLineTerminator(s[..k]) && GlobMatches(g[1..], s[k..])
    else |s| > 0 && s[0] == g[0] && GlobMatches(g[1..], s[1..])
  }

  /** Whether the wildcard `pattern` accepts `s`, as `WildcardNodeSet` decides. */
  predicate WildcardMatches(pattern: string, s: string) {
    TokMatches(Compile(pattern), s)
  }

  // ---------------------------------------------------------------------------
  // From tokens to a glob string

  /** The glob a token list stands for: literals as themselves, `.*` as `*`. */
  function Render(ts: seq<Token>): string
  {
    if |ts| == 0 then ""
    else (match ts[0] case Lit(t) => t case AnyRun => [Star]) + Render(ts[1..])
  }

  lemma {:induction false} RenderAppend(a: seq<Token>, b: seq<Token>)
    ensures Render(a + b) == Render(a) + Render(b)
    decreases |a|
  {
    if |a| > 0 {
      var h := match a[0] case Lit(t) => t case AnyRun => [Star];
      assert (a + b)[0] == a[0];
      assert (a + b)[1..] == a[1..] + b;
      assert Render(a + b) == h + Render(a[1..] + b);
      assert Render(a) == h + Render(a[1..]);
      RenderAppend(a[1..], b);
      assert h + (Render(a[1..]) + Render(b)) == (h + Render(a[1..])) + Render(b);
    } else {
      assert a + b == b;
    }
  }

  /** A star-free literal at the front of a glob must be a prefix of the string. */
  lemma {:induction false} GlobLitPrefix(t: string, g: string, s: string)
    requires StarFree(t)
    ensures GlobMatches(t + g, s) <==> t <= s && GlobMatches(g, s[|t|..])
    decreases |t|
  {
    if |t| == 0 {
      assert t + g == g;
    } else {
      assert (t + g)[0] == t[0] && (t + g)[1..] == t[1..] + g;
      assert StarFree(t[1..]) by {
        forall j | 0 <= j < |t[1..]| ensures t[1..][j] != Star {
          assert t[1..][j] == t[j + 1];
        }
      }
      if |s| > 0 && s[0] == t[0] {
        GlobLitPrefix(t[1..], g, s[1..]);
        if |t| <= |s| {
          assert s[1..][|t| - 1..] == s[|t|..];
        }
        assert t <= s <==> t[1..] <= s[1..];
      }
    }
  }

  /** A token list with star-free literals matches exactly what its glob does. */
  lemma {:induction false} RenderSound(ts: seq<Token>, s: string)
    requires LitsStarFree(ts)
    ensures TokMatches(ts, s) <==> GlobMatches(Render(ts), s)
    decreases |ts|
  {
    if |ts| > 0 {
      var rest := ts[1..];
      assert LitsStarFree(rest) by {
        forall i | 0 <= i < |rest| && rest[i].Lit? ensures StarFree(rest[i].text) {
          assert rest[i] == ts[i + 1];
        }
      }
      match ts[0]
      case Lit(t) =>
        assert StarFree(t) by { assert ts[0].Lit?; }
        GlobLitPrefix(t, Render(rest), s);
        if t <= s {
          RenderSound(rest, s[|t|..]);
        }
      case AnyRun =>
        var g := Render(ts);
        assert g == [Star] + Render(rest);
        assert g[0] == Star && g[1..] == Render(rest);
        forall k | 0 <= k <= |s|
          ensures TokMatches(rest, s[k..]) <==> GlobMatches(Render(rest), s[k..])
        {
          RenderSound(rest, s[k..]);
        }
    }
  }

  // ---------------------------------------------------------------------------
  // The glob of a compiled pattern

  function Stars(n: nat): (r: string)
    ensures |r| == n
    ensures forall i | 0 <= i < n :: r[i] == Star
  {
    seq(n, _ => Star)
  }

  function Empties(n: nat): (r: seq<string>)
    ensures |r| == n
    ensures forall i | 0 <= i < n :: r[i] == ""
  {
    seq(n, _ => "")
  }

  lemma {:induction false} RenderLoop(xs: seq<string>, t: string)
    ensures Render(LoopTokens(xs) + [Lit(t)]) == Join(xs + [t], Star)
    decreases |xs|
  {
    if |xs| == 0 {
      assert xs + [t] == [t];
      assert Render([Lit(t)]) == t + Render([]);
    } else {
      var head := (if xs[0] != "" then [Lit(xs[0])] else []) + [AnyRun];
      assert LoopTokens(xs) + [Lit(t)] == head + (LoopTokens(xs[1..]) + [Lit(t)]);
      RenderAppend(head, LoopTokens(xs[1..]) + [Lit(t)]);
      assert Render(head) == xs[0] + [Star] by {
        if xs[0] != "" {
          assert Render(head) == xs[0] + Render([AnyRun]);
        } else {
          assert head == [AnyRun];
        }
        assert Render([AnyRun]) == [Star] + Render([]);
      }
      RenderLoop(xs[1..], t);
      assert (xs + [t])[1..] == xs[1..] + [t];
    }
  }

  lemma {:induction false} JoinAllEmpty(n: nat)
    requires n >= 1
    ensures Join(Empties(n), Star) == Stars(n - 1)
    decreases n
  {
    if n > 1 {
      JoinAllEmpty(n - 1);
      assert Empties(n)[1..] == Empties(n - 1);
      assert Stars(n - 1) == [Star] + Stars(n - 2);
    }
  }

  lemma {:induction false} JoinEmptyTail(xs: seq<string>, n: nat)
    requires |xs| >= 1
    ensures Join(xs + Empties(n), Star) == Join(xs, Star) + Stars(n)
    decreases |xs|
  {
    if |xs| == 1 {
      if n > 0 {
        assert (xs + Empties(n))[1..] == Empties(n);
        JoinAllEmpty(n);
        assert Stars(n) == [Star] + Stars(n - 1);
      } else {
        assert xs + Empties(0) == xs;
      }
    } else {
      assert (xs + Empties(n))[1..] == xs[1..] + Empties(n);
      JoinEmptyTail(xs[1..], n);
    }
  }

  /** The last raw piece is empty exactly when the string is empty or ends
      in a separator. */
  lemma {:induction false} RawSplitLastEmpty(s: string, seps: set<char>)
    ensures var raw := RawSplit(s, seps);
            raw[|raw| - 1] == "" <==> |s| == 0 || s[|s| - 1] in seps
    decreases |s|
  {
    if |s| > 0 {
      var rest := RawSplit(s[1..], seps);
      RawSplitLastEmpty(s[1..], seps);
      if |s| > 1 {
        assert s[1..][|s| - 2] == s[|s| - 1];
      }
      if s[0] !in seps && |rest| == 1 {
        RawSplitSingleton(s[1..], seps);
        if |s| > 1 {
          assert s[1..][|s| - 2] !in seps;
        }
      }
    }
  }

  lemma {:induction false} StarsMatchEmpty(n: nat)
    ensures GlobMatches(Stars(n), [])
    decreases n
  {
    if n > 0 {
      StarsMatchEmpty(n - 1);
      assert Stars(n)[1..] == Stars(n - 1);
      var e: string := [];
      assert e[0..] == e;
    }
  }

  /** A run of one or more stars matches exactly the strings without line
      terminators. */
  lemma {:induction false} StarsMatchAll(n: nat, s: string)
    requires n >= 1
    ensures GlobMatches(Stars(n), s) <==> NoLineTerminator(s)
    decreases n
  {
    assert Stars(n)[1..] == Stars(n - 1);
    if NoLineTerminator(s) {
      StarsMatchEmpty(n - 1);
      assert s[..|s|] == s && s[|s|..] == [];
    }
    if GlobMatches(Stars(n), s) {
      var k :| 0 <= k <= |s| && NoLineTerminator(s[..k]) && GlobMatches(Stars(n - 1), s[k..]);
      if n == 1 {
        assert s[k..] == [] && s[..k] == s;
      } else {
        StarsMatchAll(n - 1, s[k..]);
        forall i | 0 <= i < |s| ensures !IsLineTerminator(s[i]) {
          if i < k { assert s[..k][i] == s[i]; } else { assert s[k..][i - k] == s[i]; }
        }
      }
    }
  }

  /** Globs ending in two all-accepting tails accept the same strings. */
  lemma {:induction false} GlobTailCongruence(a: string, t1: string, t2: string, s: string)
    requires forall x :: GlobMatches(t1, x) <==> GlobMatches(t2, x)
    ensures GlobMatches(a + t1, s) <==> GlobMatches(a + t2, s)
    decreases |a|
  {
    if |a| == 0 {
      assert a + t1 == t1 && a + t2 == t2;
    } else {
      assert (a + t1)[0] == a[0] && (a + t1)[1..] == a[1..] + t1;
      assert (a + t2)[0] == a[0] && (a + t2)[1..] == a[1..] + t2;
      if a[0] == Star {
        forall k | 0 <= k <= |s|
          ensures GlobMatches(a[1..] + t1, s[k..]) <==> GlobMatches(a[1..] + t2, s[k..])
        {
          GlobTailCongruence(a[1..], t1, t2, s[k..]);
        }
      } else if |s| > 0 {
        GlobTailCongruence(a[1..], t1, t2, s[1..]);
      }
    }
  }

  /** A trailing run of stars may be shortened to a single star. */
  lemma CollapseTrailingStars(a: string, n: nat, s: string)
    requires n >= 1
    ensures GlobMatches(a + Stars(n), s) <==> GlobMatches(a + [Star], s)
  {
    forall x ensures GlobMatches(Stars(n), x) <==> GlobMatches([Star], x) {
      StarsMatchAll(n, x);
      StarsMatchAll(1, x);
      assert Stars(1) == [Star];
    }
    GlobTailCongruence(a, Stars(n), [Star], s);
  }

  /** The original pattern ends in `*` exactly when its normalised form does. */
  lemma EndsWithStar(pattern: string)
    ensures (|pattern| > 0 && pattern[|pattern| - 1] == Star)
        <==> (|Normalize(pattern)| > 0 && Normalize(pattern)[|pattern| - 1] == Star)
  {
  }

  lemma CompileStarFree(pattern: string, s: string)
    requires |RawSplit(Normalize(pattern), {Star})| == 1
    ensures WildcardMatches(pattern, s) <==> GlobMatches(Normalize(pattern), s)
  {
    var q := Normalize(pattern);
    RawSplitSingleton(q, {Star});
    EndsWithStar(pattern);
    var ts := Compile(pattern);
    assert JavaSplit(q, {Star}) == [q];
    assert ts == LoopTokens([]) + [Lit(q)];
    RenderLoop([], q);
    assert [] + [q] == [q];
    RenderSound(ts, s);
  }

  lemma CompileNoTrailingStar(pattern: string, s: string)
    requires var raw := RawSplit(Normalize(pattern), {Star});
             |raw| > 1 && raw[|raw| - 1] != ""
    ensures WildcardMatches(pattern, s) <==> GlobMatches(Normalize(pattern), s)
  {
    NoTrailingStarRender(pattern);
    RenderSound(Compile(pattern), s);
  }

  /** Without a trailing star nothing is dropped by `split`. */
  lemma NoTrailingStarParts(pattern: string)
    requires var raw := RawSplit(Normalize(pattern), {Star});
             |raw| > 1 && raw[|raw| - 1] != ""
    ensures JavaSplit(Normalize(pattern), {Star}) == RawSplit(Normalize(pattern), {Star})
    ensures !(|pattern| > 0 && pattern[|pattern| - 1] == Star)
  {
    var q := Normalize(pattern);
    RawSplitJoin(q, Star);
    RawSplitLastEmpty(q, {Star});
    EndsWithStar(pattern);
  }

  /** Without a trailing star the matcher renders as the normalised pattern. */
  lemma NoTrailingStarRender(pattern: string)
    requires var raw := RawSplit(Normalize(pattern), {Star});
             |raw| > 1 && raw[|raw| - 1] != ""
    ensures Render(Compile(pattern)) == Normalize(pattern)
  {
    NoTrailingStarParts(pattern);
    var q := Normalize(pattern);
    var parts := JavaSplit(q, {Star});
    RawSplitJoin(q, Star);
    var m := |parts|;
    var ts := Compile(pattern);
    assert ts == LoopTokens(parts[..m - 1]) + [Lit(parts[m - 1])];
    RenderLoop(parts[..m - 1], parts[m - 1]);
    assert parts[..m - 1] + [parts[m - 1]] == parts;
  }

  /** A list is its trailing-empty-free prefix followed by empty strings. */
  lemma DropTrailingEmptyShape(xs: seq<string>)
    ensures xs == DropTrailingEmpty(xs) + Empties(|xs| - |DropTrailingEmpty(xs)|)
  {
    var r := DropTrailingEmpty(xs);
    assert forall i | 0 <= i < |xs| :: xs[i] == (r + Empties(|xs| - |r|))[i];
  }

  lemma CompileOnlyStars(pattern: string, s: string)
    requires var raw := RawSplit(Normalize(pattern), {Star});
             |raw| > 1 && raw[|raw| - 1] == "" && |JavaSplit(Normalize(pattern), {Star})| == 0
    ensures WildcardMatches(pattern, s) <==> GlobMatches(Normalize(pattern), s)
  {
    var q := Normalize(pattern);
    var raw := RawSplit(q, {Star});
    RawSplitJoin(q, Star);
    RawSplitLastEmpty(q, {Star});
    EndsWithStar(pattern);
    DropTrailingEmptyShape(raw);
    var ts := Compile(pattern);
    assert ts == [AnyRun];
    RenderSound(ts, s);
    assert Render(ts) == [Star] + Render([]);
    assert raw == Empties(|raw|);
    JoinAllEmpty(|raw|);
    CollapseTrailingStars("", |raw| - 1, s);
    assert "" + Stars(|raw| - 1) == q;
    assert "" + [Star] == Render(ts);
  }

  lemma CompileTrailingStar(pattern: string, s: string)
    requires var raw := RawSplit(Normalize(pattern), {Star});
             |raw| > 1 && raw[|raw| - 1] == "" && |JavaSplit(Normalize(pattern), {Star})| > 0
    ensures WildcardMatches(pattern, s) <==> GlobMatches(Normalize(pattern), s)
  {
    var raw := RawSplit(Normalize(pattern), {Star});
    var parts := JavaSplit(Normalize(pattern), {Star});
    TrailingStarRender(pattern);
    TrailingStarPattern(pattern);
    RenderSound(Compile(pattern), s);
    CollapseTrailingStars(Join(parts, Star), |raw| - |parts|, s);
  }

  /** With a trailing star the matcher renders as the kept pieces joined by
      stars, plus one star. */
  lemma TrailingStarRender(pattern: string)
    requires var raw := RawSplit(Normalize(pattern), {Star});
             |raw| > 1 && raw[|raw| - 1] == "" && |JavaSplit(Normalize(pattern), {Star})| > 0
    ensures Render(Compile(pattern)) == Join(JavaSplit(Normalize(pattern), {Star}), Star) + [Star]
  {
    var q := Normalize(pattern);
    RawSplitLastEmpty(q, {Star});
    EndsWithStar(pattern);
    var parts := JavaSplit(q, {Star});
    var m := |parts|;
    var body := LoopTokens(parts[..m - 1]) + [Lit(parts[m - 1])];
    var ts := Compile(pattern);
    assert ts == body + [AnyRun];
    RenderAppend(body, [AnyRun]);
    RenderLoop(parts[..m - 1], parts[m - 1]);
    assert parts[..m - 1] + [parts[m - 1]] == parts;
    assert Render([AnyRun]) == [Star] + Render([]);
  }

  /** ... and the normalised pattern is those pieces joined by stars, plus
      the stars of the dropped empty pieces. */
  lemma TrailingStarPattern(pattern: string)
    requires var raw := RawSplit(Normalize(pattern), {Star});
             |raw| > 1 && raw[|raw| - 1] == "" && |JavaSplit(Normalize(pattern), {Star})| > 0
    ensures var parts := JavaSplit(Normalize(pattern), {Star});
            var raw := RawSplit(Normalize(pattern), {Star});
            |raw| > |parts| && Normalize(pattern) == Join(parts, Star) + Stars(|raw| - |parts|)
  {
    var q := Normalize(pattern);
    var raw := RawSplit(q, {Star});
    var parts := JavaSplit(q, {Star});
    RawSplitLastEmpty(q, {Star});
    RawSplitJoin(q, Star);
    DropTrailingEmptyShape(raw);
    JoinEmptyTail(parts, |raw| - |parts|);
  }

  /** The compiled matcher accepts exactly what the glob reading of the
      normalised pattern accepts. */
  lemma CompileMatchesGlob(pattern: string, s: string)
    ensures WildcardMatches(pattern, s) <==> GlobMatches(Normalize(pattern), s)
  {
    var raw := RawSplit(Normalize(pattern), {Star});
    if |raw| == 1 {
      CompileStarFree(pattern, s);
    } else if raw[|raw| - 1] != "" {
      CompileNoTrailingStar(pattern, s);
    } else if |JavaSplit(Normalize(pattern), {Star})| == 0 {
      CompileOnlyStars(pattern, s);
    } else {
      CompileTrailingStar(pattern, s);
    }
  }

  // ---------------------------------------------------------------------------
  // What the patterns of a configuration file mean

  /** The pattern `*` contains exactly the names without line terminators. */
  lemma StarMatchesTerminatorFree(s: string)
    ensures WildcardMatches("*", s) <==> NoLineTerminator(s)
  {
    CompileMatchesGlob("*", s);
    assert Normalize("*") == Stars(1);
    StarsMatchAll(1, s);
  }

  /** A pattern without `*` matches exactly its normalised string. */
  lemma NoStarMatchesExactly(pattern: string, s: string)
    requires StarFree(pattern)
    ensures WildcardMatches(pattern, s) <==> s == Normalize(pattern)
  {
    var q := Normalize(pattern);
    CompileMatchesGlob(pattern, s);
    GlobLitPrefix(q, "", s);
    assert q + "" == q;
  }

  /** `prefix*` matches exactly the names that start with the normalised
      prefix and hold no line terminator after it. */
  lemma TrailingStarMatchesPrefix(prefix: string, s: string)
    requires StarFree(prefix)
    ensures WildcardMatches(prefix + "*", s)
        <==> Normalize(prefix) <= s && NoLineTerminator(s[|prefix|..])
  {
    var q := Normalize(prefix + "*");
    assert q == Normalize(prefix) + [Star];
    CompileMatchesGlob(prefix + "*", s);
    GlobLitPrefix(Normalize(prefix), [Star], s);
    if Normalize(prefix) <= s {
      StarsMatchAll(1, s[|prefix|..]);
      assert Stars(1) == [Star];
    }
  }

  /** `*infix*` matches exactly the names that contain the normalised infix
      with no line terminator before or after that occurrence. */
  lemma SurroundingStarsMatchInfix(infix: string, s: string)
    requires StarFree(infix)
    ensures WildcardMatches("*" + infix + "*", s)
        <==> exists k | 0 <= k <= |s| ::
               Normalize(infix) <= s[k..] && NoLineTerminator(s[..k]) && NoLineTerminator(s[k + |infix|..])
  {
    var t := Normalize(infix);
    var q := Normalize("*" + infix + "*");
    assert q == [Star] + (t + [Star]);
    CompileMatchesGlob("*" + infix + "*", s);
    InfixGlob(t, q, s);
  }

  /** The glob `*t*` for a star-free `t`, read occurrence by occurrence. */
  lemma InfixGlob(t: string, q: string, s: string)
    requires StarFree(t) && q == [Star] + (t + [Star])
    ensures GlobMatches(q, s)
        <==> exists k | 0 <= k <= |s| :: t <= s[k..] && NoLineTerminator(s[..k]) && NoLineTerminator(s[k + |t|..])
  {
    assert q[0] == Star && q[1..] == t + [Star];
    LeadingStar(q, s);
    if GlobMatches(q, s) {
      var k :| 0 <= k <= |s| && NoLineTerminator(s[..k]) && GlobMatches(q[1..], s[k..]);
      OccurrenceAt(t, s, k);
    }
    if exists k | 0 <= k <= |s| :: t <= s[k..] && NoLineTerminator(s[..k]) && NoLineTerminator(s[k + |t|..]) {
      var k :| 0 <= k <= |s| && t <= s[k..] && NoLineTerminator(s[..k]) && NoLineTerminator(s[k + |t|..]);
      OccurrenceAt(t, s, k);
      assert NoLineTerminator(s[..k]) && GlobMatches(q[1..], s[k..]);
    }
  }

  /** A leading star takes a run without line terminators. */
  lemma LeadingStar(g: string, s: string)
    requires |g| > 0 && g[0] == Star
    ensures GlobMatches(g, s) <==> exists k | 0 <= k <= |s| :: NoLineTerminator(s[..k]) && GlobMatches(g[1..], s[k..])
  {
  }

  lemma OccurrenceAt(t: string, s: string, k: nat)
    requires StarFree(t) && k <= |s|
    ensures GlobMatches(t + [Star], s[k..]) <==> t <= s[k..] && NoLineTerminator(s[k + |t|..])
  {
    StarAfterLiteral(t, s[k..]);
    if t <= s[k..] {
      assert s[k..][|t|..] == s[k + |t|..];
    }
  }

  /** `t*` for a star-free `t`: the literal, then a run without line terminators. */
  lemma StarAfterLiteral(t: string, s: string)
    requires StarFree(t)
    ensures GlobMatches(t + [Star], s) <==> t <= s && NoLineTerminator(s[|t|..])
  {
    GlobLitPrefix(t, [Star], s);
    if t <= s {
      StarsMatchAll(1, s[|t|..]);
      assert Stars(1) == [Star];
    }
  }

  // The cases below are those of the tool's unit tests; the strings are
  // passed as parameters so that the verifier does not evaluate `Compile` on
  // the literals.

  /** Normalisation read character by character. */
  lemma NormalizeIs(p: string, q: string)
    requires |p| == |q| && forall i | 0 <= i < |p| :: (if p[i] == '.' then '/' else p[i]) == q[i]
    ensures Normalize(p) == q
  {
  }

  lemma JavaLangDot(p: string)
    requires p == "java.lang."
    ensures StarFree(p) && Normalize(p) == "java/lang/"
  {
    NormalizeIs(p, "java/lang/");
  }

  lemma JavaLang(p: string)
    requires p == "java.lang"
    ensures StarFree(p) && Normalize(p) == "java/lang"
  {
    NormalizeIs(p, "java/lang");
  }

  lemma JavaLangObject(p: string)
    requires p == "java.lang.Object"
    ensures StarFree(p) && Normalize(p) == "java/lang/Object"
  {
    NormalizeIs(p, "java/lang/Object");
  }

  lemma JavaLangString(p: string)
    requires p == "java.lang.String"
    ensures StarFree(p) && Normalize(p) == "java/lang/String"
  {
    NormalizeIs(p, "java/lang/String");
  }

  lemma Lang(p: string)
    requires p == "lang"
    ensures StarFree(p) && Normalize(p) == "lang"
  {
    NormalizeIs(p, "lang");
  }

  /** A name that differs from a pattern at some index does not start with it. */
  lemma NotPrefixAt(q: string, s: string, i: nat)
    requires i < |q| && i < |s| && q[i] != s[i]
    ensures !(q <= s)
  {
  }

  /** `java.lang.*` contains `java/lang/Object` but not `java/util/List`. */
  lemma PackageWildcardExample(p: string, s: string, u: string)
    requires p == "java.lang.*" && s == "java/lang/Object" && u == "java/util/List"
    ensures WildcardMatches(p, s) && !WildcardMatches(p, u)
  {
    var prefix := p[..|p| - 1];
    assert prefix + "*" == p;
    JavaLangDot(prefix);
    TrailingStarMatchesPrefix(prefix, s);
    TrailingStarMatchesPrefix(prefix, u);
    assert s == Normalize(prefix) + "Object";
    NotPrefixAt(Normalize(prefix), u, 5);
  }

  /** `java.lang*` contains `java/lang/Object` but not `java/util/List`. */
  lemma PrefixWildcardExample(p: string, s: string, u: string)
    requires p == "java.lang*" && s == "java/lang/Object" && u == "java/util/List"
    ensures WildcardMatches(p, s) && !WildcardMatches(p, u)
  {
    var prefix := p[..|p| - 1];
    assert prefix + "*" == p;
    JavaLang(prefix);
    TrailingStarMatchesPrefix(prefix, s);
    TrailingStarMatchesPrefix(prefix, u);
    assert s == Normalize(prefix) + "/Object";
    NotPrefixAt(Normalize(prefix), u, 5);
  }

  /** A dotted class name contains its slashed form and nothing else. */
  lemma ExactNameExample(p: string, p2: string, s: string)
    requires p == "java.lang.Object" && p2 == "java.lang.String" && s == "java/lang/Object"
    ensures WildcardMatches(p, s) && !WildcardMatches(p2, s)
  {
    JavaLangObject(p);
    JavaLangString(p2);
    NoStarMatchesExactly(p, s);
    NoStarMatchesExactly(p2, s);
    assert Normalize(p2)[10] != s[10];
  }

  /** `lang` occurs nowhere in `java/util/List`: no `l` there is followed
      by an `a`. */
  lemma LangNotIn(q: string, u: string)
    requires q == "lang" && u == "java/util/List"
    ensures forall k | 0 <= k <= |u| :: !(q <= u[k..])
  {
    assert forall k | 0 <= k < |u| - 1 :: !(u[k] == 'l' && u[k + 1] == 'a');
    forall k | 0 <= k <= |u| ensures !(q <= u[k..]) {
      if k + 1 < |u| {
        assert u[k..][0] == u[k] && u[k..][1] == u[k + 1];
      }
    }
  }

  lemma InfixAccepts(infix: string, s: string)
    requires StarFree(infix) && Normalize(infix) == "lang" && s == "java/lang/Object"
    ensures WildcardMatches("*" + infix + "*", s)
  {
    SurroundingStarsMatchInfix(infix, s);
    LangIn(Normalize(infix), s);
  }

  lemma LangIn(q: string, s: string)
    requires q == "lang" && s == "java/lang/Object"
    ensures exists k | 0 <= k <= |s| :: q <= s[k..] && NoLineTerminator(s[..k]) && NoLineTerminator(s[k + |q|..])
  {
    assert s == "java/" + q + "/Object";
    assert s[..5] == "java/" && s[9..] == "/Object" && q <= s[5..];
  }

  lemma InfixRejects(infix: string, u: string)
    requires StarFree(infix) && Normalize(infix) == "lang" && u == "java/util/List"
    ensures !WildcardMatches("*" + infix + "*", u)
  {
    SurroundingStarsMatchInfix(infix, u);
    LangNotIn(Normalize(infix), u);
  }

  /** `*lang*` contains `java/lang/Object` but not `java/util/List`. */
  lemma InfixWildcardExample(p: string, s: string, u: string)
    requires p == "*lang*" && s == "java/lang/Object" && u == "java/util/List"
    ensures WildcardMatches(p, s) && !WildcardMatches(p, u)
  {
    var infix := p[1..|p| - 1];
    assert "*" + infix + "*" == p;
    Lang(infix);
    InfixAccepts(infix, s);
    InfixRejects(infix, u);
  }
}
