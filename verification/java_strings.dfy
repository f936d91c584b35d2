/** The few `java.lang.String` operations the tool relies on, with Java's exact
    semantics: `split` drops trailing empty strings, `trim` strips every
    character up to U+0020, `compareTo` returns the first code-unit difference,
    and the regex `.` never matches a line terminator. A Dafny `char` is a
    Unicode scalar value, not a Java `char`: the UTF-16 code units a Java
    string holds for it are `CodeUnits`, and a lone surrogate, which a Java
    string may hold, has no `char` here. */
module JavaStrings {

  /** Characters that the regex `.` refuses to match (java.util.regex.Pattern
      without DOTALL): \n, \r, U+0085, U+2028, U+2029. */
  predicate IsLineTerminator(c: char) {
    c == '\n' || c == '\r' || c == '\U{0085}' || c == '\U{2028}' || c == '\U{2029}'
  }

  predicate NoLineTerminator(s: string) {
    forall i | 0 <= i < |s| :: !IsLineTerminator(s[i])
  }

  predicate StartsWith(s: string, prefix: string) {
    prefix <= s
  }

  predicate EndsWith(s: string, suffix: string) {
    |suffix| <= |s| && s[|s| - |suffix|..] == suffix
  }

  predicate ContainsChar(s: string, c: char) {
    exists i | 0 <= i < |s| :: s[i] == c
  }

  /** `String.replace(char, char)`. */
  function ReplaceChar(s: string, from: char, to: char): (r: string)
    ensures |r| == |s|
    ensures forall i | 0 <= i < |s| :: r[i] == (if s[i] == from then to else s[i])
  {
    if |s| == 0 then "" else [if s[0] == from then to else s[0]] + ReplaceChar(s[1..], from, to)
  }

  // ---------------------------------------------------------------------------
  // split

  /** Every piece between separator characters, empty pieces included: the
      list `split` starts from before it discards trailing empty strings. */
  function RawSplit(s: string, seps: set<char>): (r: seq<string>)
    ensures |r| >= 1
    decreases |s|
  {
    if |s| == 0 then [""]
    else
      var rest := RawSplit(s[1..], seps);
      if s[0] in seps then [""] + rest else [[s[0]] + rest[0]] + rest[1..]
  }

  /** Pieces glued back together with one separator between neighbours. */
  function Join(parts: seq<string>, sep: char): string
    requires |parts| >= 1
  {
    if |parts| == 1 then parts[0] else parts[0] + [sep] + Join(parts[1..], sep)
  }

  predicate SepFree(s: string, seps: set<char>) {
    forall j | 0 <= j < |s| :: s[j] !in seps
  }

  predicate AllSepFree(parts: seq<string>, seps: set<char>) {
    forall i | 0 <= i < |parts| :: SepFree(parts[i], seps)
  }

  /** The pieces of a raw split never contain a separator. */
  lemma {:induction false} RawSplitPiecesSepFree(s: string, seps: set<char>)
    ensures AllSepFree(RawSplit(s, seps), seps)
    decreases |s|
  {
    if |s| > 0 {
      RawSplitPiecesSepFree(s[1..], seps);
      var rest := RawSplit(s[1..], seps);
      if s[0] !in seps {
        var head := [s[0]] + rest[0];
        assert SepFree(head, seps) by {
          forall j | 0 <= j < |head| ensures head[j] !in seps {
            if j > 0 { assert head[j] == rest[0][j - 1]; }
          }
        }
      }
    }
  }

  /** Splitting on one separator and joining with it gives back the input. */
  lemma {:induction false} RawSplitJoin(s: string, c: char)
    ensures Join(RawSplit(s, {c}), c) == s
    decreases |s|
  {
    if |s| > 0 {
      RawSplitJoin(s[1..], c);
      var rest := RawSplit(s[1..], {c});
      if s[0] == c {
        assert RawSplit(s, {c}) == [""] + rest;
        assert ([""] + rest)[1..] == rest;
        assert s == [c] + s[1..];
      } else {
        var parts := RawSplit(s, {c});
        assert parts == [[s[0]] + rest[0]] + rest[1..];
        if |rest| == 1 {
          assert Join(parts, c) == [s[0]] + rest[0];
          assert s == [s[0]] + s[1..];
        } else {
          assert parts[1..] == rest[1..];
          assert Join(rest, c) == rest[0] + [c] + Join(rest[1..], c);
          assert Join(parts, c) == [s[0]] + rest[0] + [c] + Join(rest[1..], c);
          assert s == [s[0]] + s[1..];
        }
      }
    }
  }

  /** A separator-free piece and a separator start the split with that piece. */
  lemma {:induction false} RawSplitPrefix(a: string, c: char, t: string, seps: set<char>)
    requires SepFree(a, seps) && c in seps
    ensures RawSplit(a + [c] + t, seps) == [a] + RawSplit(t, seps)
    decreases |a|
  {
    var s := a + [c] + t;
    if |a| == 0 {
      assert s == [c] + t && s[1..] == t;
    } else {
      assert s[0] == a[0] && s[1..] == a[1..] + [c] + t;
      assert SepFree(a[1..], seps) by {
        forall j | 0 <= j < |a[1..]| ensures a[1..][j] !in seps { assert a[1..][j] == a[j + 1]; }
      }
      RawSplitPrefix(a[1..], c, t, seps);
      assert [a[0]] + a[1..] == a;
    }
  }

  /** Joining separator-free pieces and splitting again gives the pieces
      back: the other half of the round trip. */
  lemma {:induction false} JoinRawSplit(parts: seq<string>, c: char)
    requires |parts| >= 1 && AllSepFree(parts, {c})
    ensures RawSplit(Join(parts, c), {c}) == parts
    decreases |parts|
  {
    if |parts| == 1 {
      RawSplitSingleton(parts[0], {c});
    } else {
      JoinRawSplit(parts[1..], c);
      RawSplitPrefix(parts[0], c, Join(parts[1..], c), {c});
      assert [parts[0]] + parts[1..] == parts;
    }
  }

  /** A raw split has a single piece exactly when no separator occurs. */
  lemma {:induction false} RawSplitSingleton(s: string, seps: set<char>)
    ensures |RawSplit(s, seps)| == 1 <==> SepFree(s, seps)
    ensures SepFree(s, seps) ==> RawSplit(s, seps) == [s]
    decreases |s|
  {
    if |s| > 0 {
      RawSplitSingleton(s[1..], seps);
      if s[0] !in seps && SepFree(s[1..], seps) {
        assert s == [s[0]] + s[1..];
      }
      if SepFree(s, seps) {
        assert SepFree(s[1..], seps) by {
          forall j | 0 <= j < |s[1..]| ensures s[1..][j] !in seps { assert s[1..][j] == s[j + 1]; }
        }
      } else if s[0] !in seps {
        var j :| 0 <= j < |s| && s[j] in seps;
        assert s[1..][j - 1] == s[j];
      }
    }
  }

  /** Removes empty strings from the end, as `split` with limit 0 does. */
  function DropTrailingEmpty(xs: seq<string>): (r: seq<string>)
    ensures r <= xs
    ensures |r| == 0 || r[|r| - 1] != ""
    ensures forall i | |r| <= i < |xs| :: xs[i] == ""
  {
    if |xs| > 0 && xs[|xs| - 1] == "" then DropTrailingEmpty(xs[..|xs| - 1]) else xs
  }

  /** `String.split(regex)` for a regex matching exactly one character of
      `seps`: when nothing matches the result is the input alone, otherwise
      the raw pieces with trailing empty strings removed. */
  function JavaSplit(s: string, seps: set<char>): (r: seq<string>)
  {
    var raw := RawSplit(s, seps);
    if |raw| == 1 then raw else DropTrailingEmpty(raw)
  }

  /** What `split` promises its callers: no piece holds a separator, the
      result is a prefix of the raw pieces, and only a separator-free input
      comes back whole. */
  lemma JavaSplitFacts(s: string, seps: set<char>)
    ensures AllSepFree(JavaSplit(s, seps), seps)
    ensures JavaSplit(s, seps) <= RawSplit(s, seps)
    ensures SepFree(s, seps) ==> JavaSplit(s, seps) == [s]
    ensures !SepFree(s, seps) ==> JavaSplit(s, seps) == DropTrailingEmpty(RawSplit(s, seps))
  {
    RawSplitPiecesSepFree(s, seps);
    RawSplitSingleton(s, seps);
  }

  // ---------------------------------------------------------------------------
  // trim

  /** `String.trim` removes characters whose code is at most U+0020. */
  predicate IsTrimmable(c: char) {
    c as int <= 0x20
  }

  /** How many characters `trim` drops at the front. */
  function Leading(s: string): (k: nat)
    ensures k <= |s|
    ensures forall i | 0 <= i < k :: IsTrimmable(s[i])
    ensures k < |s| ==> !IsTrimmable(s[k])
  {
    if |s| > 0 && IsTrimmable(s[0]) then 1 + Leading(s[1..]) else 0
  }

  /** Where the part `trim` keeps ends: every character from there on is dropped. */
  function Trailing(s: string): (j: nat)
    ensures j <= |s|
    ensures forall i | j <= i < |s| :: IsTrimmable(s[i])
    ensures j > 0 ==> !IsTrimmable(s[j - 1])
  {
    if |s| > 0 && IsTrimmable(s[|s| - 1]) then Trailing(s[..|s| - 1]) else |s|
  }

  /** `String.trim`: the infix left after dropping characters up to U+0020 at
      both ends; it is empty exactly when every character is such a one.
      Everything before and after it is trimmable. */
  function Trim(s: string): (r: string)
    ensures r == [] || (!IsTrimmable(r[0]) && !IsTrimmable(r[|r| - 1]))
    ensures r == [] <==> forall i | 0 <= i < |s| :: IsTrimmable(s[i])
    ensures r <= s[Leading(s)..]
    ensures Leading(s) + |r| <= |s| && r == s[Leading(s)..Leading(s) + |r|]
    ensures forall i | Leading(s) + |r| <= i < |s| :: IsTrimmable(s[i])
  {
    var k := Leading(s);
    var t := s[k..];
    var j := Trailing(t);
    assert j > 0 ==> t[0] == s[k];
    forall i | k + j <= i < |s| ensures IsTrimmable(s[i]) {
      assert s[i] == t[i - k];
    }
    t[..j]
  }

  /** `trim` is determined by its frame: a non-blank-ended middle between
      two trimmable runs is what `trim` returns. */
  lemma TrimUnique(p: string, r: string, q: string)
    requires forall i | 0 <= i < |p| :: IsTrimmable(p[i])
    requires forall i | 0 <= i < |q| :: IsTrimmable(q[i])
    requires r == [] || (!IsTrimmable(r[0]) && !IsTrimmable(r[|r| - 1]))
    ensures Trim(p + r + q) == r
  {
    var s := p + r + q;
    if r == [] {
      assert s == p + q;
      forall i | 0 <= i < |s| ensures IsTrimmable(s[i]) {
        if i >= |p| { assert s[i] == q[i - |p|]; }
      }
    } else {
      var k := Leading(s);
      assert s[|p|] == r[0];
      assert k == |p|;
      var t := Trim(s);
      var e := |p| + |r| - 1;
      assert s[e] == r[|r| - 1];
      assert |t| >= |r|;
      assert t == s[|p|..|p| + |r|];
    }
  }

  // ---------------------------------------------------------------------------
  // UTF-16

  predicate IsHighSurrogate(u: int) {
    0xD800 <= u < 0xDC00
  }

  predicate IsLowSurrogate(u: int) {
    0xDC00 <= u < 0xE000
  }

  /** The UTF-16 code units Java stores for one code point: the code point
      itself below U+10000, otherwise a high surrogate then a low one. */
  function Utf16(c: char): (r: seq<int>)
    ensures 1 <= |r| <= 2
    ensures forall i | 0 <= i < |r| :: 0 <= r[i] < 0x1_0000
    ensures |r| == 2 <==> IsHighSurrogate(r[0])
    ensures |r| == 2 ==> IsLowSurrogate(r[1])
  {
    var v := c as int;
    if v < 0x1_0000 then [v]
    else [0xD800 + (v - 0x1_0000) / 0x400, 0xDC00 + (v - 0x1_0000) % 0x400]
  }

  /** The code point a one- or two-unit encoding stands for. */
  function DecodeUtf16(units: seq<int>): int
    requires 1 <= |units| <= 2
  {
    if |units| == 1 then units[0]
    else 0x1_0000 + (units[0] - 0xD800) * 0x400 + (units[1] - 0xDC00)
  }

  /** Decoding inverts the encoding, so no two characters share one. */
  lemma Utf16RoundTrip(c: char)
    ensures DecodeUtf16(Utf16(c)) == c as int
  {
    var v := c as int;
    if v >= 0x1_0000 {
      var w := v - 0x1_0000;
      assert w == (w / 0x400) * 0x400 + w % 0x400;
    }
  }

  /** The contents of Java's `char[]` for a string: every character's code
      units, in order. */
  function CodeUnits(s: string): (r: seq<int>)
    ensures |r| >= |s|
    ensures forall i | 0 <= i < |r| :: 0 <= r[i] < 0x1_0000
    decreases |s|
  {
    if |s| == 0 then [] else Utf16(s[0]) + CodeUnits(s[1..])
  }

  /** A string below U+10000 throughout is its own code units. */
  lemma {:induction false} CodeUnitsOfBasic(s: string)
    requires forall i | 0 <= i < |s| :: (s[i] as int) < 0x1_0000
    ensures |CodeUnits(s)| == |s|
    ensures forall i | 0 <= i < |s| :: CodeUnits(s)[i] == s[i] as int
    decreases |s|
  {
    if |s| > 0 {
      CodeUnitsOfBasic(s[1..]);
    }
  }

  /** Different strings have different code units: the first unit says
      whether a surrogate pair follows. */
  lemma {:induction false} CodeUnitsInjective(s: string, t: string)
    requires CodeUnits(s) == CodeUnits(t)
    ensures s == t
    decreases |s|
  {
    if |s| > 0 && |t| > 0 {
      var a := Utf16(s[0]);
      var b := Utf16(t[0]);
      var u := CodeUnits(s);
      assert u == a + CodeUnits(s[1..]) && u == b + CodeUnits(t[1..]);
      assert a[0] == u[0] == b[0];
      assert |a| == |b|;
      assert a == u[..|a|] == b;
      Utf16RoundTrip(s[0]);
      Utf16RoundTrip(t[0]);
      assert CodeUnits(s[1..]) == u[|a|..] == CodeUnits(t[1..]);
      CodeUnitsInjective(s[1..], t[1..]);
      assert s == [s[0]] + s[1..] && t == [t[0]] + t[1..];
    }
  }

  // ---------------------------------------------------------------------------
  // compareTo

  /** Lexicographic comparison of code units: the difference at the first
      position where they differ, or the difference of lengths when one is
      a prefix of the other. */
  function CompareUnits(a: seq<int>, b: seq<int>): int
    decreases |a|
  {
    if |a| == 0 || |b| == 0 then |a| - |b|
    else if a[0] != b[0] then a[0] - b[0]
    else CompareUnits(a[1..], b[1..])
  }

  lemma {:induction false} CompareUnitsZeroIffEqual(a: seq<int>, b: seq<int>)
    ensures CompareUnits(a, b) == 0 <==> a == b
    decreases |a|
  {
    if |a| > 0 && |b| > 0 && a[0] == b[0] {
      CompareUnitsZeroIffEqual(a[1..], b[1..]);
      if a[1..] == b[1..] {
        assert a == [a[0]] + a[1..] && b == [b[0]] + b[1..];
      }
    }
  }

  lemma {:induction false} CompareUnitsAntisymmetric(a: seq<int>, b: seq<int>)
    ensures CompareUnits(a, b) == -CompareUnits(b, a)
    decreases |a|
  {
    if |a| > 0 && |b| > 0 && a[0] == b[0] {
      CompareUnitsAntisymmetric(a[1..], b[1..]);
    }
  }

  lemma {:induction false} CompareUnitsTransitive(a: seq<int>, b: seq<int>, c: seq<int>)
    requires CompareUnits(a, b) < 0 && CompareUnits(b, c) < 0
    ensures CompareUnits(a, c) < 0
    decreases |a|
  {
    if |a| > 0 && |b| > 0 && |c| > 0 && a[0] == b[0] && b[0] == c[0] {
      CompareUnitsTransitive(a[1..], b[1..], c[1..]);
    }
  }

  /** `String.compareTo`: the code units of both strings compared
      lexicographically. */
  function CompareStrings(s: string, t: string): int
  {
    CompareUnits(CodeUnits(s), CodeUnits(t))
  }

  /** `compareTo` reports 0 exactly for equal strings. */
  lemma CompareStringsZeroIffEqual(s: string, t: string)
    ensures CompareStrings(s, t) == 0 <==> s == t
  {
    CompareUnitsZeroIffEqual(CodeUnits(s), CodeUnits(t));
    if CodeUnits(s) == CodeUnits(t) {
      CodeUnitsInjective(s, t);
    }
  }

  /** Swapping the arguments negates the result exactly. */
  lemma CompareStringsAntisymmetric(s: string, t: string)
    ensures CompareStrings(s, t) == -CompareStrings(t, s)
  {
    CompareUnitsAntisymmetric(CodeUnits(s), CodeUnits(t));
  }

  /** The order `compareTo` induces is transitive. */
  lemma CompareStringsTransitive(s: string, t: string, u: string)
    requires CompareStrings(s, t) < 0 && CompareStrings(t, u) < 0
    ensures CompareStrings(s, u) < 0
  {
    CompareUnitsTransitive(CodeUnits(s), CodeUnits(t), CodeUnits(u));
  }

  /** Java orders by code unit, not by code point: U+FFFF sorts after
      U+10000, whose first unit is the high surrogate U+D800. */
  lemma CompareStringsByCodeUnit(s: string, t: string)
    requires s == "\U{FFFF}" && t == "\U{10000}"
    ensures CodeUnits(t) == [0xD800, 0xDC00]
    ensures s[0] < t[0] && CompareStrings(s, t) == 0xFFFF - 0xD800
  {
    assert CodeUnits(s) == Utf16(s[0]) && CodeUnits(t) == Utf16(t[0]);
  }
}
