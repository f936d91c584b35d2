/** `Misc.shortClassName`: the part of a class name after its last package
    separator, as the call-path printer shows it. */
module ShortNames {
  import opened Wrappers
  import opened JavaStrings

  /** The exception of indexing an empty array. */
  datatype IndexError = ArrayIndexOutOfBounds(index: int)

  const Separators: set<char> := {'/', '.'}

  predicate AllSeps(s: string, seps: set<char>) {
    forall i | 0 <= i < |s| :: s[i] in seps
  }

  // ---------------------------------------------------------------------------
  // A reading from the end of the name

  /** The input without its trailing run of separators. */
  function StripTrailing(s: string, seps: set<char>): (r: string)
    ensures r <= s && AllSeps(s[|r|..], seps)
    ensures |r| == 0 || r[|r| - 1] !in seps
  {
    if |s| > 0 && s[|s| - 1] in seps then
      var r := StripTrailing(s[..|s| - 1], seps);
      assert s[|r|..] == s[..|s| - 1][|r|..] + [s[|s| - 1]];
      r
    else s
  }

  /** Where the last segment starts: just after the last separator, or at 0
      when there is none. */
  function SegmentStart(s: string, seps: set<char>): (k: nat)
    ensures k <= |s| && (k > 0 ==> s[k - 1] in seps)
    ensures forall j | k <= j < |s| :: s[j] !in seps
  {
    if |s| == 0 then 0
    else if s[|s| - 1] in seps then |s|
    else
      var k := SegmentStart(s[..|s| - 1], seps);
      assert forall j | k <= j < |s| - 1 :: s[..|s| - 1][j] == s[j];
      k
  }

  /** What follows the last separator: a suffix without separators, preceded
      by a separator unless it is the whole input. */
  function LastSegment(s: string, seps: set<char>): (r: string)
    ensures |r| <= |s| && s[|s| - |r|..] == r && SepFree(r, seps)
    ensures |r| < |s| ==> s[|s| - |r| - 1] in seps
  {
    var k := SegmentStart(s, seps);
    assert forall j | 0 <= j < |s| - k :: s[k..][j] == s[k + j];
    s[k..]
  }

  /** Appending a separator empties the last segment; appending anything
      else extends it. */
  lemma LastSegmentSnoc(t: string, c: char, seps: set<char>)
    ensures LastSegment(t + [c], seps) == if c in seps then "" else LastSegment(t, seps) + [c]
  {
    var s := t + [c];
    assert s[..|s| - 1] == t;
    if c !in seps {
      var k := SegmentStart(t, seps);
      assert SegmentStart(s, seps) == k;
      assert s[k..] == t[k..] + [c];
    }
  }

  /** A separator-free tail after a separator is the last segment. */
  lemma {:induction false} LastSegmentAfterSep(a: string, b: string, seps: set<char>)
    requires |a| > 0 && a[|a| - 1] in seps && SepFree(b, seps)
    ensures LastSegment(a + b, seps) == b
    decreases |b|
  {
    if |b| == 0 {
      assert a + b == a;
      LastSegmentSnoc(a[..|a| - 1], a[|a| - 1], seps);
      assert a[..|a| - 1] + [a[|a| - 1]] == a;
    } else {
      var b' := b[..|b| - 1];
      assert a + b == (a + b') + [b[|b| - 1]];
      assert SepFree(b', seps) by { forall j | 0 <= j < |b'| ensures b'[j] !in seps { assert b'[j] == b[j]; } }
      LastSegmentAfterSep(a, b', seps);
      LastSegmentSnoc(a + b', b[|b| - 1], seps);
      assert b' + [b[|b| - 1]] == b;
    }
  }

  // ---------------------------------------------------------------------------
  // `split` read from the end

  /** A separator at the end adds one empty piece. */
  lemma {:induction false} RawSplitAppendSep(t: string, c: char, seps: set<char>)
    requires c in seps
    ensures RawSplit(t + [c], seps) == RawSplit(t, seps) + [""]
    decreases |t|
  {
    if |t| == 0 {
      assert RawSplit([c], seps) == [""] + RawSplit([c][1..], seps);
    } else {
      assert (t + [c])[1..] == t[1..] + [c];
      RawSplitAppendSep(t[1..], c, seps);
    }
  }

  /** Any other character at the end extends the last piece. */
  lemma {:induction false} RawSplitAppendOther(t: string, c: char, seps: set<char>)
    requires c !in seps
    ensures var raw := RawSplit(t, seps);
            RawSplit(t + [c], seps) == raw[..|raw| - 1] + [raw[|raw| - 1] + [c]]
    decreases |t|
  {
    if |t| == 0 {
      assert t + [c] == [c] && [c][1..] == "";
      assert RawSplit("", seps) == [""];
      assert RawSplit([c], seps) == [[c] + ""] + [""][1..];
      assert [c] + "" == [c] && [""][1..] == [];
    } else {
      assert (t + [c])[1..] == t[1..] + [c];
      RawSplitAppendOther(t[1..], c, seps);
      var rest := RawSplit(t[1..], seps);
      if t[0] !in seps && |rest| == 1 {
        assert [t[0]] + (rest[0] + [c]) == [t[0]] + rest[0] + [c];
      }
    }
  }

  /** The last raw piece is what follows the last separator. */
  lemma {:induction false} RawSplitLast(s: string, seps: set<char>)
    ensures var raw := RawSplit(s, seps); raw[|raw| - 1] == LastSegment(s, seps)
    decreases |s|
  {
    if |s| > 0 {
      var t := s[..|s| - 1];
      var c := s[|s| - 1];
      assert s == t + [c];
      RawSplitLast(t, seps);
      LastSegmentSnoc(t, c, seps);
      if c in seps { RawSplitAppendSep(t, c, seps); } else { RawSplitAppendOther(t, c, seps); }
    }
  }

  lemma AllSepsSnoc(t: string, c: char, seps: set<char>)
    ensures AllSeps(t + [c], seps) <==> AllSeps(t, seps) && c in seps
  {
    var s := t + [c];
    if AllSeps(s, seps) {
      assert s[|t|] == c;
      forall i | 0 <= i < |t| ensures t[i] in seps { assert t[i] == s[i]; }
    }
  }

  /** What `split` keeps, before the single-piece rule: nothing exactly for
      separators only (the empty name included), otherwise pieces whose last
      one is the last segment of the name without its trailing separators. */
  predicate DroppedShape(s: string, seps: set<char>) {
    var d := DropTrailingEmpty(RawSplit(s, seps));
    && (|d| == 0 <==> AllSeps(s, seps))
    && (|d| > 0 ==> d[|d| - 1] == LastSegment(StripTrailing(s, seps), seps))
  }

  lemma {:induction false} DroppedSplitLast(s: string, seps: set<char>)
    ensures DroppedShape(s, seps)
    decreases |s|
  {
    if |s| > 0 {
      var t := s[..|s| - 1];
      var c := s[|s| - 1];
      assert s == t + [c];
      DroppedSplitLast(t, seps);
      AllSepsSnoc(t, c, seps);
      if c in seps {
        DroppedAfterSep(t, c, seps);
      } else {
        DroppedAfterOther(t, c, seps);
      }
    }
  }

  lemma DroppedAfterSep(t: string, c: char, seps: set<char>)
    requires c in seps && DroppedShape(t, seps)
    requires AllSeps(t + [c], seps) <==> AllSeps(t, seps) && c in seps
    ensures DroppedShape(t + [c], seps)
  {
    var s := t + [c];
    RawSplitAppendSep(t, c, seps);
    var raw := RawSplit(s, seps);
    assert raw[..|raw| - 1] == RawSplit(t, seps);
    assert DropTrailingEmpty(raw) == DropTrailingEmpty(RawSplit(t, seps));
    assert s[..|s| - 1] == t;
    assert StripTrailing(s, seps) == StripTrailing(t, seps);
  }

  lemma DroppedAfterOther(t: string, c: char, seps: set<char>)
    requires c !in seps
    requires AllSeps(t + [c], seps) <==> AllSeps(t, seps) && c in seps
    ensures DroppedShape(t + [c], seps)
  {
    var s := t + [c];
    assert s[..|s| - 1] == t;
    RawSplitAppendOther(t, c, seps);
    RawSplitLast(t, seps);
    LastSegmentSnoc(t, c, seps);
    var rawT := RawSplit(t, seps);
    var raw := RawSplit(s, seps);
    var last := rawT[|rawT| - 1] + [c];
    assert raw == rawT[..|rawT| - 1] + [last];
    assert raw[|raw| - 1] == last && last != "";
    assert DropTrailingEmpty(raw) == raw;
    assert StripTrailing(s, seps) == s;
  }

  /** `split` with the single-piece rule: nothing exactly for a non-empty
      name of separators only, otherwise a last piece that is the last
      segment of the name without its trailing separators. */
  lemma JavaSplitLast(s: string, seps: set<char>)
    ensures |JavaSplit(s, seps)| == 0 <==> |s| > 0 && AllSeps(s, seps)
    ensures var parts := JavaSplit(s, seps);
            |parts| > 0 ==> parts[|parts| - 1] == LastSegment(StripTrailing(s, seps), seps)
  {
    var raw := RawSplit(s, seps);
    RawSplitSingleton(s, seps);
    if |raw| == 1 {
      RawSplitLast(s, seps);
      SepFreeIsOwnSegment(s, seps);
      if |s| > 0 { assert s[0] !in seps; }
    } else {
      DroppedSplitLast(s, seps);
      assert |s| > 0;
    }
  }

  /** `className.split("[/.]")` and its last element. A name made only of
      separators splits into no pieces at all, so the index is -1. */
  function ShortClassName(className: string): (r: Result<string, IndexError>)
    ensures r.Failure? <==> |className| > 0 && AllSeps(className, Separators)
    ensures r.Failure? ==> r.error == ArrayIndexOutOfBounds(-1)
    ensures r.Success? ==> r.value == LastSegment(StripTrailing(className, Separators), Separators)
  {
    var parts := JavaSplit(className, Separators);
    JavaSplitLast(className, Separators);
    if |parts| == 0 then Failure(ArrayIndexOutOfBounds(-1)) else Success(parts[|parts| - 1])
  }

  /** The short name holds no separator, ends the name up to its trailing
      separators, and a name without separators is its own short name. */
  lemma ShortClassNameShape(className: string)
    ensures var r := ShortClassName(className);
            && (r.Success? ==> SepFree(r.value, Separators))
            && (r.Success? ==> EndsWith(StripTrailing(className, Separators), r.value))
            && (SepFree(className, Separators) ==> r == Success(className))
  {
    var r := ShortClassName(className);
    if r.Success? {
      var t := StripTrailing(className, Separators);
      var v := LastSegment(t, Separators);
      assert r.value == v && t[|t| - |v|..] == v;
    }
    if SepFree(className, Separators) {
      SepFreeIsOwnSegment(className, Separators);
    }
  }

  lemma SepFreeIsOwnSegment(s: string, seps: set<char>)
    requires SepFree(s, seps)
    ensures StripTrailing(s, seps) == s && LastSegment(s, seps) == s
  {
    if |s| > 0 {
      assert s[|s| - 1] !in seps;
    }
    var k := SegmentStart(s, seps);
    assert s[k..] == s;
  }

  /** A non-empty separator-free tail after a separator is the short name. */
  lemma ShortNameAfterSep(a: string, b: string)
    requires |a| > 0 && a[|a| - 1] in Separators && |b| > 0 && SepFree(b, Separators)
    ensures ShortClassName(a + b) == Success(b)
  {
    var s := a + b;
    assert s[|s| - 1] == b[|b| - 1] && s[|s| - 1] !in Separators;
    assert StripTrailing(s, Separators) == s;
    LastSegmentAfterSep(a, b, Separators);
  }

  lemma ObjectIsSepFree(b: string)
    requires b == "Object"
    ensures |b| > 0 && SepFree(b, Separators)
  {
  }

  /** Examples: `java/lang/Object` and `java.lang.Object` give `Object`,
      `a/b/` gives `b`, and `//` fails. */
  lemma ShortClassNameOfObject()
    ensures ShortClassName("java/lang/Object") == Success("Object")
    ensures ShortClassName("java.lang.Object") == Success("Object")
  {
    ObjectIsSepFree("Object");
    ShortNameAfterSep("java/lang/", "Object");
    assert "java/lang/Object" == "java/lang/" + "Object";
    ShortNameAfterSep("java.lang.", "Object");
    assert "java.lang.Object" == "java.lang." + "Object";
  }

  lemma ShortClassNameTrailingSeparator()
    ensures ShortClassName("a/b/") == Success("b")
    ensures ShortClassName("//").Failure?
  {
    assert AllSeps("//", Separators);
    assert "a/b/"[..3] == "a/b";
    assert StripTrailing("a/b/", Separators) == "a/b";
    assert "a/b" == "a/" + "b";
    assert SepFree("b", Separators);
    LastSegmentAfterSep("a/", "b", Separators);
  }
}
