/** The per-line processing of a configuration file: comments are dropped,
    the line is trimmed, and a directive `ignore`, `safe`, `unsafe` or
    `allowfp` adds a wildcard to the set it names. */
module ConfigLines {
  import opened Wrappers
  import opened JavaStrings
  import opened MethodPaths
  import opened NodeSets
  import opened Wildcards
  import opened Usage

  /** A line as `Scanner.nextLine` returns it: it holds no line terminator. */
  type Line = s: string | NoLineTerminator(s) witness ""

  /** The four sets a configuration file fills. */
  datatype ConfigSets = ConfigSets(ignore: NodeSet, assumedSafe: NodeSet, assumedUnsafe: NodeSet, allowedFpMath: NodeSet)

  datatype Directive = Ignore | Safe | Unsafe | AllowFp

  function Field(sets: ConfigSets, d: Directive): NodeSet {
    match d
    case Ignore => sets.ignore
    case Safe => sets.assumedSafe
    case Unsafe => sets.assumedUnsafe
    case AllowFp => sets.allowedFpMath
  }

  function WithField(sets: ConfigSets, d: Directive, ns: NodeSet): (r: ConfigSets)
    ensures Field(r, d) == ns
    ensures forall e | e != d :: Field(r, e) == Field(sets, e)
  {
    match d
    case Ignore => sets.(ignore := ns)
    case Safe => sets.(assumedSafe := ns)
    case Unsafe => sets.(assumedUnsafe := ns)
    case AllowFp => sets.(allowedFpMath := ns)
  }

  /** Every member of every set of `a` is still a member in `b`. */
  ghost predicate Grows(a: ConfigSets, b: ConfigSets) {
    forall d: Directive ::
      && (forall c :: ContainsClass(Field(a, d), c) ==> ContainsClass(Field(b, d), c))
      && (forall p :: ContainsMethod(Field(a, d), p) ==> ContainsMethod(Field(b, d), p))
  }

  // ---------------------------------------------------------------------------
  // Comments

  /** A comment starts at `i`: a `#`, or the first of two slashes. */
  predicate CommentAt(s: string, i: nat)
    requires i < |s|
  {
    s[i] == '#' || (s[i] == '/' && i + 1 < |s| && s[i + 1] == '/')
  }

  predicate CommentFree(s: string) {
    forall i | 0 <= i < |s| :: !CommentAt(s, i)
  }

  /** Where the leftmost match of `(#|//).*$` begins; the length when there
      is none. On a line without terminators `.*` reaches the end, so the
      first comment start always matches. */
  function CommentStart(s: string): (k: nat)
    ensures k <= |s|
    ensures k < |s| ==> CommentAt(s, k)
    ensures forall i | 0 <= i < k :: !CommentAt(s, i)
    decreases |s|
  {
    if |s| == 0 then 0
    else if CommentAt(s, 0) then 0
    else
      var k := CommentStart(s[1..]);
      assert forall i | 1 <= i < |s| :: CommentAt(s, i) == CommentAt(s[1..], i - 1);
      1 + k
  }

  /** `cleanLine`: the comment removed, then `trim`. What is kept before the
      comment is the result between two runs of trimmable characters. */
  function CleanLine(line: Line): (r: string)
    ensures CommentFree(r)
    ensures r == [] || (!IsTrimmable(r[0]) && !IsTrimmable(r[|r| - 1]))
    ensures r == [] <==> forall i | 0 <= i < CommentStart(line) :: IsTrimmable(line[i])
    ensures var kept := line[..CommentStart(line)];
            && Leading(kept) + |r| <= |kept|
            && r == kept[Leading(kept)..Leading(kept) + |r|]
            && (forall i | 0 <= i < Leading(kept) :: IsTrimmable(kept[i]))
            && (forall i | Leading(kept) + |r| <= i < |kept| :: IsTrimmable(kept[i]))
  {
    var kept := line[..CommentStart(line)];
    var r := Trim(kept);
    PrefixCommentFree(line);
    TrimInfix(kept);
    InfixCommentFree(kept, r);
    r
  }

  /** The cleaned line is fixed by its frame: a middle with non-blank ends
      between two trimmable runs, before the comment, is what is kept. */
  lemma CleanLineUnique(line: Line, p: string, r: string, q: string)
    requires line[..CommentStart(line)] == p + r + q
    requires forall i | 0 <= i < |p| :: IsTrimmable(p[i])
    requires forall i | 0 <= i < |q| :: IsTrimmable(q[i])
    requires r == [] || (!IsTrimmable(r[0]) && !IsTrimmable(r[|r| - 1]))
    ensures CleanLine(line) == r
  {
    TrimUnique(p, r, q);
  }

  lemma PrefixCommentFree(s: string)
    ensures CommentFree(s[..CommentStart(s)])
  {
    var k := CommentStart(s);
    var kept := s[..k];
    forall i | 0 <= i < k ensures !CommentAt(kept, i) {
      assert kept[i] == s[i] && !CommentAt(s, i);
      if i + 1 < k {
        assert kept[i + 1] == s[i + 1];
      }
    }
  }

  /** `trim` keeps an infix. */
  lemma TrimInfix(s: string)
    ensures exists a | 0 <= a <= |s| :: Trim(s) <= s[a..]
  {
    var a := Leading(s);
    assert Trim(s) <= s[a..];
  }

  /** An infix of a text before its first comment start holds no comment. */
  lemma InfixCommentFree(s: string, r: string)
    requires CommentFree(s)
    requires exists a | 0 <= a <= |s| :: r <= s[a..]
    ensures CommentFree(r)
  {
    var a :| 0 <= a <= |s| && r <= s[a..];
    forall i | 0 <= i < |r| ensures !CommentAt(r, i) {
      assert r[i] == s[a + i];
      assert !CommentAt(s, a + i);
      if i + 1 < |r| {
        assert r[i + 1] == s[a + i + 1];
      }
    }
  }

  /** A text free of comments that `trim` leaves alone comes back unchanged:
      cleaning is idempotent. */
  lemma CleanLineKeepsClean(s: Line)
    requires CommentFree(s)
    requires s == [] || (!IsTrimmable(s[0]) && !IsTrimmable(s[|s| - 1]))
    ensures CleanLine(s) == s
  {
    assert s[..CommentStart(s)] == s;
    TrimKeepsTrimmed(s);
  }

  lemma TrimKeepsTrimmed(s: string)
    requires s == [] || (!IsTrimmable(s[0]) && !IsTrimmable(s[|s| - 1]))
    ensures Trim(s) == s
  {
    if s != [] {
      assert Leading(s) == 0;
      assert s[0..] == s;
      assert Trailing(s) == |s|;
    }
  }

  lemma CleanLineIdempotent(line: Line)
    ensures CleanLine(CleanLine(line)) == CleanLine(line)
  {
    CleanLineNoTerminator(line);
    CleanLineKeepsClean(CleanLine(line));
  }

  lemma CleanLineNoTerminator(line: Line)
    ensures NoLineTerminator(CleanLine(line))
  {
    var kept := line[..CommentStart(line)];
    var r := CleanLine(line);
    var a := Leading(kept);
    forall i | 0 <= i < |r| ensures !IsLineTerminator(r[i]) {
      assert r[i] == kept[a + i] == line[a + i];
    }
  }

  /** Whatever follows a comment marker is dropped: only the text before it
      is kept, trimmed. */
  lemma CommentDropped(s: Line, marker: string, t: Line)
    requires marker == "#" || marker == "//"
    requires CommentFree(s)
    requires marker == "//" ==> s == [] || s[|s| - 1] != '/'
    ensures NoLineTerminator(s + marker + t)
    ensures CleanLine(s + marker + t) == Trim(s)
  {
    var line: Line := s + marker + t;
    var m0 := if marker == "#" then '#' else '/';
    assert marker[0] == m0;
    assert line[|s|] == m0;
    forall i | 0 <= i < |s| ensures !CommentAt(line, i) {
      assert line[i] == s[i] && !CommentAt(s, i);
      if i + 1 < |s| {
        assert line[i + 1] == s[i + 1];
      }
    }
    if marker == "//" {
      assert line[|s| + 1] == '/';
    }
    assert CommentAt(line, |s|);
    assert CommentStart(line) == |s|;
    assert line[..|s|] == s;
  }

  // ---------------------------------------------------------------------------
  // Directive and argument

  /** Java's `\s`: space, tab, newline, vertical tab, form feed, return. */
  predicate IsSpace(c: char) {
    c == ' ' || c == '\t' || c == '\n' || c as int == 0x0B || c as int == 0x0C || c == '\r'
  }

  predicate SpaceFree(s: string) {
    forall i | 0 <= i < |s| :: !IsSpace(s[i])
  }

  /** Index of the first whitespace character, or the length. */
  function FirstSpace(s: string): (k: nat)
    ensures k <= |s|
    ensures k < |s| ==> IsSpace(s[k])
    ensures SpaceFree(s[..k])
    decreases |s|
  {
    if |s| == 0 || IsSpace(s[0]) then 0
    else
      var k := FirstSpace(s[1..]);
      assert s[..1 + k] == [s[0]] + s[1..][..k];
      1 + k
  }

  /** Where the whitespace run starting at `k` ends. */
  function SpaceRunEnd(s: string, k: nat): (j: nat)
    requires k <= |s|
    ensures k <= j <= |s|
    ensures forall i | k <= i < j :: IsSpace(s[i])
    ensures j < |s| ==> !IsSpace(s[j])
    decreases |s| - k
  {
    if k < |s| && IsSpace(s[k]) then SpaceRunEnd(s, k + 1) else k
  }

  /** `line.split("\\s+", 2)`: the text before the leftmost whitespace run,
      and, when there is one, the text after it; with no whitespace the rest
      is empty. */
  function SplitDirective(line: string): (r: (string, string))
    ensures SpaceFree(r.0) && r.0 <= line
    ensures |r.0| == |line| ==> r.1 == ""
    ensures |r.0| < |line| ==>
      exists j | |r.0| < j <= |line| ::
        && (forall i | |r.0| <= i < j :: IsSpace(line[i]))
        && r.1 == line[j..]
        && (r.1 == [] || !IsSpace(r.1[0]))
  {
    var k := FirstSpace(line);
    if k == |line| then
      assert line[..k] == line;
      (line, "")
    else
      var j := SpaceRunEnd(line, k);
      assert j > k;
      (line[..k], line[j..])
  }

  lemma FirstSpaceIs(s: string, k: nat)
    requires k < |s| && IsSpace(s[k]) && SpaceFree(s[..k])
    ensures FirstSpace(s) == k
  {
    assert forall i | 0 <= i < k :: s[..k][i] == s[i];
    assert forall i | 0 <= i < FirstSpace(s) :: s[..FirstSpace(s)][i] == s[i];
  }

  lemma {:induction false} SpaceRunEndIs(s: string, k: nat, j: nat)
    requires k <= j <= |s|
    requires forall i | k <= i < j :: IsSpace(s[i])
    requires j < |s| ==> !IsSpace(s[j])
    ensures SpaceRunEnd(s, k) == j
    decreases j - k
  {
    if k < j {
      SpaceRunEndIs(s, k + 1, j);
    }
  }

  /** A directive, a whitespace run and an argument split back into the
      directive and the argument. */
  lemma SplitDirectiveJoin(cmd: string, sep: string, arg: string)
    requires SpaceFree(cmd) && |sep| > 0 && (arg == [] || !IsSpace(arg[0]))
    requires forall i | 0 <= i < |sep| :: IsSpace(sep[i])
    ensures SplitDirective(cmd + sep + arg) == (cmd, arg)
  {
    var line := cmd + sep + arg;
    var n := |cmd| + |sep|;
    assert line[..|cmd|] == cmd;
    assert line[|cmd|] == sep[0];
    FirstSpaceIs(line, |cmd|);
    assert forall i | |cmd| <= i < n :: line[i] == sep[i - |cmd|];
    if n < |line| {
      assert line[n] == arg[0];
    }
    SpaceRunEndIs(line, |cmd|, n);
    assert line[n..] == arg;
  }

  function DirectiveOf(cmd: string): (r: Option<Directive>)
    ensures r == Some(Ignore) <==> cmd == "ignore"
    ensures r == Some(Safe) <==> cmd == "safe"
    ensures r == Some(Unsafe) <==> cmd == "unsafe"
    ensures r == Some(AllowFp) <==> cmd == "allowfp"
  {
    if cmd == "ignore" then Some(Ignore)
    else if cmd == "safe" then Some(Safe)
    else if cmd == "unsafe" then Some(Unsafe)
    else if cmd == "allowfp" then Some(AllowFp)
    else None
  }

  function DirectiveName(d: Directive): (r: string)
    ensures DirectiveOf(r) == Some(d)
  {
    match d
    case Ignore => "ignore"
    case Safe => "safe"
    case Unsafe => "unsafe"
    case AllowFp => "allowfp"
  }

  // ---------------------------------------------------------------------------
  // processLine

  /** `processLine`: a line empty after cleaning changes nothing; a known
      directive unions the wildcard of the rest of the line into its own set
      and leaves the other three as they were; anything else is a usage
      error quoting the cleaned line. No member is ever lost. */
  function ProcessLine(sets: ConfigSets, line: Line): (r: Result<ConfigSets, AppError>)
    ensures CleanLine(line) == [] ==> r == Success(sets)
    ensures r.Failure? <==> CleanLine(line) != [] && DirectiveOf(SplitDirective(CleanLine(line)).0).None?
    ensures r.Failure? ==> r.error == BadUsage("Invalid line in configuration file: '" + CleanLine(line) + "'")
    ensures r.Success? ==> Grows(sets, r.value)
    ensures r.Success? ==> forall d, e | d != e :: Field(r.value, d) == Field(sets, d) || Field(r.value, e) == Field(sets, e)
    ensures r.Success? && CleanLine(line) != [] ==>
      var d := DirectiveOf(SplitDirective(CleanLine(line)).0).value;
      var g := Normalize(SplitDirective(CleanLine(line)).1);
      && (forall c :: ContainsClass(Field(r.value, d), c) <==> ContainsClass(Field(sets, d), c) || GlobMatches(g, c))
      && (forall p: MethodPath :: ContainsMethod(Field(r.value, d), p) <==>
            || ContainsMethod(Field(sets, d), p)
            || GlobMatches(g, p.owner) || GlobMatches(g, p.owner + "::" + p.name))
      && (forall e | e != d :: Field(r.value, e) == Field(sets, e))
  {
    var cleaned := CleanLine(line);
    if cleaned == [] then Success(sets)
    else
      var (cmd, rest) := SplitDirective(cleaned);
      match DirectiveOf(cmd)
      case None => Failure(BadUsage("Invalid line in configuration file: '" + cleaned + "'"))
      case Some(d) =>
        var r := WithField(sets, d, UnionOf(Field(sets, d), NewWildcard(rest)));
        assert Grows(sets, r) by {
          forall e: Directive ensures
            && (forall c :: ContainsClass(Field(sets, e), c) ==> ContainsClass(Field(r, e), c))
            && (forall p :: ContainsMethod(Field(sets, e), p) ==> ContainsMethod(Field(r, e), p))
          {
          }
        }
        Success(r)
  }

  /** `loadConfig` over the lines of one file: each line in order; the first
      bad line stops the load. */
  function ProcessLines(sets: ConfigSets, lines: seq<Line>): (r: Result<ConfigSets, AppError>)
    ensures r.Success? ==> Grows(sets, r.value)
    ensures r.Failure? ==> r.error.BadUsage?
    decreases |lines|
  {
    if |lines| == 0 then Success(sets)
    else
      match ProcessLine(sets, lines[0])
      case Failure(e) => Failure(e)
      case Success(next) =>
        var r := ProcessLines(next, lines[1..]);
        assert r.Success? ==> Grows(sets, r.value) by {
          if r.Success? {
            GrowsTrans(sets, next, r.value);
          }
        }
        r
  }

  /** Loading two runs of lines one after the other is loading them
      together: what the first run leaves is where the second starts, and a
      failure in the first stops everything. */
  lemma {:induction false} ProcessLinesAppend(sets: ConfigSets, a: seq<Line>, b: seq<Line>)
    ensures ProcessLines(sets, a + b) ==
              match ProcessLines(sets, a)
              case Failure(e) => Failure(e)
              case Success(mid) => ProcessLines(mid, b)
    decreases |a|
  {
    if |a| > 0 {
      assert (a + b)[0] == a[0] && (a + b)[1..] == a[1..] + b;
      match ProcessLine(sets, a[0])
      case Failure(_) =>
      case Success(next) => ProcessLinesAppend(next, a[1..], b);
    } else {
      assert a + b == b;
    }
  }

  lemma GrowsTrans(a: ConfigSets, b: ConfigSets, c: ConfigSets)
    requires Grows(a, b) && Grows(b, c)
    ensures Grows(a, c)
  {
  }

  // ---------------------------------------------------------------------------
  // What a directive line means

  /** A pattern as it may follow a directive: not empty, no comment in it,
      and nothing `trim` would remove at either end. */
  predicate PatternText(p: string) {
    p != [] && CommentFree(p) && !IsTrimmable(p[0]) && !IsTrimmable(p[|p| - 1])
  }

  lemma CommentFreeJoin(a: string, b: string)
    requires CommentFree(a) && CommentFree(b)
    requires a == [] || b == [] || a[|a| - 1] != '/' || b[0] != '/'
    ensures CommentFree(a + b)
  {
    var s := a + b;
    forall i | 0 <= i < |s| ensures !CommentAt(s, i) {
      if i < |a| {
        assert s[i] == a[i] && !CommentAt(a, i);
        if i + 1 < |a| {
          assert s[i + 1] == a[i + 1];
        } else if i + 1 < |s| {
          assert s[i + 1] == b[0];
        }
      } else {
        assert s[i] == b[i - |a|] && !CommentAt(b, i - |a|);
        if i + 1 < |s| {
          assert s[i + 1] == b[i + 1 - |a|];
        }
      }
    }
  }

  lemma DirectiveLineClean(name: string, pattern: Line)
    requires name != [] && CommentFree(name) && !IsTrimmable(name[0]) && NoLineTerminator(name)
    requires PatternText(pattern)
    ensures NoLineTerminator(name + " " + pattern)
    ensures CleanLine(name + " " + pattern) == name + " " + pattern
  {
    var line: Line := name + " " + pattern;
    assert CommentFree(" ");
    CommentFreeJoin(name, " ");
    CommentFreeJoin(name + " ", pattern);
    assert line[0] == name[0] && line[|line| - 1] == pattern[|pattern| - 1];
    CleanLineKeepsClean(line);
  }

  /** The line `<directive> <pattern>` is clean, and splits into the
      directive's name and the pattern. */
  lemma DirectiveLineSplits(d: Directive, pattern: Line)
    requires PatternText(pattern)
    ensures NoLineTerminator(DirectiveName(d) + " " + pattern)
    ensures CleanLine(DirectiveName(d) + " " + pattern) == DirectiveName(d) + " " + pattern
    ensures SplitDirective(DirectiveName(d) + " " + pattern) == (DirectiveName(d), pattern)
  {
    var name := DirectiveName(d);
    assert CommentFree(name) && SpaceFree(name) && NoLineTerminator(name);
    DirectiveLineClean(name, pattern);
    SplitDirectiveJoin(name, " ", pattern);
  }

  /** The line `<directive> <pattern>` unions the pattern's wildcard into the
      directive's set and leaves the other sets as they were. */
  lemma DirectiveLine(sets: ConfigSets, d: Directive, pattern: Line)
    requires PatternText(pattern)
    ensures NoLineTerminator(DirectiveName(d) + " " + pattern)
    ensures ProcessLine(sets, DirectiveName(d) + " " + pattern).Success?
    ensures var r := ProcessLine(sets, DirectiveName(d) + " " + pattern).value;
            && (forall c :: ContainsClass(Field(r, d), c) <==>
                              ContainsClass(Field(sets, d), c) || GlobMatches(Normalize(pattern), c))
            && (forall p: MethodPath :: ContainsMethod(Field(r, d), p) <==>
                  || ContainsMethod(Field(sets, d), p)
                  || GlobMatches(Normalize(pattern), p.owner)
                  || GlobMatches(Normalize(pattern), p.owner + "::" + p.name))
            && (forall e | e != d :: Field(r, e) == Field(sets, e))
  {
    DirectiveLineSplits(d, pattern);
    var line: Line := DirectiveName(d) + " " + pattern;
    var added := UnionOf(Field(sets, d), NewWildcard(pattern));
    assert ProcessLine(sets, line) == Success(WithField(sets, d, added));
  }

  /** A line that starts with a comment is blank. */
  lemma CommentLineBlank(l: Line)
    requires |l| > 0 && CommentAt(l, 0)
    ensures CleanLine(l) == []
  {
  }

  lemma ProcessLinesCons(sets: ConfigSets, l: Line, rest: seq<Line>)
    requires ProcessLine(sets, l).Success?
    ensures ProcessLines(sets, [l] + rest) == ProcessLines(ProcessLine(sets, l).value, rest)
  {
    assert ([l] + rest)[0] == l && ([l] + rest)[1..] == rest;
  }

  lemma ProcessLinesOne(sets: ConfigSets, l: Line)
    ensures ProcessLines(sets, [l]) == ProcessLine(sets, l)
  {
    assert [l][1..] == [];
  }

  /** Blank lines around a line leave only that line's effect. */
  lemma BlankLinesAround(sets: ConfigSets, a: Line, l: Line, b: Line)
    requires CleanLine(a) == [] && CleanLine(b) == []
    ensures ProcessLines(sets, [a, l, b]) == ProcessLine(sets, l)
  {
    assert ProcessLine(sets, a) == Success(sets);
    assert [a, l, b] == [a] + ([l] + [b]);
    ProcessLinesCons(sets, a, [l] + [b]);
    match ProcessLine(sets, l)
    case Failure(_) =>
      assert ([l] + [b])[0] == l;
    case Success(mid) =>
      ProcessLinesCons(sets, l, [b]);
      ProcessLinesOne(mid, b);
  }

  lemma HashCommentBlank(l: Line)
    requires l == "# this is a comment"
    ensures CleanLine(l) == []
  {
    CommentLineBlank(l);
  }

  lemma SlashCommentBlank(l: Line)
    requires l == "// as is this"
    ensures CleanLine(l) == []
  {
    CommentLineBlank(l);
  }

  /** `ignore *` puts every class without a line terminator in its name in
      the ignore set, and no other class. */
  lemma IgnoreAll(sets: ConfigSets, l: Line, c: string)
    requires l == "ignore *"
    ensures ProcessLine(sets, l).Success?
    ensures ContainsClass(ProcessLine(sets, l).value.ignore, c) <==> ContainsClass(sets.ignore, c) || NoLineTerminator(c)
  {
    assert PatternText("*");
    assert DirectiveName(Ignore) + " " + "*" == l by {
      assert DirectiveName(Ignore) + " " == "ignore ";
    }
    DirectiveLine(sets, Ignore, "*");
    StarMatchesTerminatorFree(c);
    CompileMatchesGlob("*", c);
  }

  /** From the loader's unit test: comment lines change nothing, and
      `ignore *` puts every class without a line terminator in its name in
      the ignore set. */
  lemma CommentLinesExample(sets: ConfigSets, l0: Line, l1: Line, l2: Line, c: string)
    requires l0 == "# this is a comment" && l1 == "ignore *" && l2 == "// as is this"
    ensures ProcessLines(sets, [l0, l1, l2]).Success?
    ensures ContainsClass(ProcessLines(sets, [l0, l1, l2]).value.ignore, c)
        <==> ContainsClass(sets.ignore, c) || NoLineTerminator(c)
  {
    HashCommentBlank(l0);
    SlashCommentBlank(l2);
    IgnoreAll(sets, l1, c);
    BlankLinesAround(sets, l0, l1, l2);
  }

  /** From the loader's unit test: `safe` and `unsafe` with the same pattern
      put a matching class in both sets. */
  lemma SafeAndUnsafeOverlap(sets: ConfigSets, pattern: Line, c: string)
    requires PatternText(pattern) && GlobMatches(Normalize(pattern), c)
    ensures NoLineTerminator("safe " + pattern) && NoLineTerminator("unsafe " + pattern)
    ensures var lines: seq<Line> := ["safe " + pattern, "unsafe " + pattern];
            && ProcessLines(sets, lines).Success?
            && ContainsClass(ProcessLines(sets, lines).value.assumedSafe, c)
            && ContainsClass(ProcessLines(sets, lines).value.assumedUnsafe, c)
  {
    DirectiveLine(sets, Safe, pattern);
    var l0: Line := DirectiveName(Safe) + " " + pattern;
    var mid := ProcessLine(sets, l0).value;
    DirectiveLine(mid, Unsafe, pattern);
    var l1: Line := DirectiveName(Unsafe) + " " + pattern;
    var last := ProcessLine(mid, l1).value;
    assert ContainsClass(Field(mid, Safe), c);
    assert ContainsClass(Field(last, Unsafe), c);
    assert Field(last, Safe) == Field(mid, Safe);
    ProcessLinesOne(mid, l1);
    ProcessLinesCons(sets, l0, [l1]);
    assert [l0, l1] == [l0] + [l1];
    assert DirectiveName(Safe) + " " == "safe ";
    assert DirectiveName(Unsafe) + " " == "unsafe ";
    assert ProcessLines(sets, [l0, l1]) == Success(last);
    assert ContainsClass(last.assumedSafe, c) && ContainsClass(last.assumedUnsafe, c);
  }
}
