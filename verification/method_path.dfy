/** `MethodPath`: the (owner class, method name, descriptor) triple that names
    a method throughout the tool, with Java value semantics for `equals`,
    `hashCode`, `toString` and `compareTo`. */
module MethodPaths {
  import opened JavaStrings

  /** The three constructor arguments, kept unchanged; the datatype's field
      selectors are the accessors `getOwner`, `getName` and `getDesc`. */
  datatype MethodPath = MethodPath(owner: string, name: string, desc: string)

  /** An argument of `equals(Object)`: a `MethodPath` or any other object. */
  datatype Obj = PathObj(path: MethodPath) | OtherObj

  /** `equals`: component-wise string equality, and false for any argument
      that is not a `MethodPath`. */
  function Equals(a: MethodPath, o: Obj): (r: bool)
    ensures r <==> o == PathObj(a)
    ensures o.OtherObj? ==> !r
  {
    match o
    case PathObj(b) => a.owner == b.owner && a.name == b.name && a.desc == b.desc
    case OtherObj => false
  }

  // ---------------------------------------------------------------------------
  // hashCode

  const Two32: int := 0x1_0000_0000
  const Two31: int := 0x8000_0000

  predicate IsInt32(x: int) {
    -Two31 <= x < Two31
  }

  /** Two's-complement truncation of an integer to 32 bits, as Java `int`
      arithmetic performs after every operation. */
  function ToInt32(x: int): (r: int)
    ensures IsInt32(r)
    ensures (r - x) % Two32 == 0
  {
    (x + Two31) % Two32 - Two31
  }

  /** `String.hashCode` as the JDK computes it: `h = 31 * h + u` over the
      UTF-16 code units, in 32-bit `int` arithmetic. */
  function UnitsHash(units: seq<int>): int
  {
    if |units| == 0 then 0 else ToInt32(31 * UnitsHash(units[..|units| - 1]) + units[|units| - 1])
  }

  function StringHash(s: string): int
  {
    UnitsHash(CodeUnits(s))
  }

  /** The same polynomial in unbounded integers: the sum of `u[i] * 31^(n-1-i)`. */
  function HashPolynomial(units: seq<int>): int
  {
    if |units| == 0 then 0 else 31 * HashPolynomial(units[..|units| - 1]) + units[|units| - 1]
  }

  lemma CongruenceStep(a: int, b: int, c: int)
    requires (a - b) % Two32 == 0
    ensures (31 * a + c - (31 * b + c)) % Two32 == 0
  {
    var k := (a - b) / Two32;
    assert a - b == k * Two32;
    assert 31 * a + c - (31 * b + c) == (31 * k) * Two32;
  }

  lemma {:induction false} UnitsHashIsPolynomialMod32(units: seq<int>)
    ensures IsInt32(UnitsHash(units))
    ensures (UnitsHash(units) - HashPolynomial(units)) % Two32 == 0
    decreases |units|
  {
    if |units| > 0 {
      var init := units[..|units| - 1];
      UnitsHashIsPolynomialMod32(init);
      var c := units[|units| - 1];
      CongruenceStep(UnitsHash(init), HashPolynomial(init), c);
      var x := 31 * UnitsHash(init) + c;
      var y := 31 * HashPolynomial(init) + c;
      assert (ToInt32(x) - x) % Two32 == 0;
      assert (x - y) % Two32 == 0;
      SumOfMultiples(ToInt32(x) - x, x - y);
    }
  }

  /** The 32-bit hash agrees modulo 2^32 with the polynomial over the code
      units, which is the JDK's documented definition of `String.hashCode`. */
  lemma StringHashIsPolynomialMod32(s: string)
    ensures IsInt32(StringHash(s))
    ensures (StringHash(s) - HashPolynomial(CodeUnits(s))) % Two32 == 0
  {
    UnitsHashIsPolynomialMod32(CodeUnits(s));
  }

  lemma SumOfMultiples(a: int, b: int)
    requires a % Two32 == 0 && b % Two32 == 0
    ensures (a + b) % Two32 == 0
  {
    var i := a / Two32;
    var j := b / Two32;
    assert a + b == (i + j) * Two32;
  }

  /** A character outside the Basic Multilingual Plane hashes as its two
      surrogates: U+1F600 is stored as U+D83D U+DE00. */
  lemma StringHashOfSurrogatePair(s: string)
    requires s == "\U{1F600}"
    ensures CodeUnits(s) == [0xD83D, 0xDE00]
    ensures StringHash(s) == 31 * 0xD83D + 0xDE00 == 1772899
  {
    assert CodeUnits(s) == Utf16(s[0]);
    var u := [0xD83D, 0xDE00];
    assert u[..1] == [0xD83D] && u[..1][..0] == [];
    assert UnitsHash(u[..0]) == 0;
    assert UnitsHash(u[..1]) == ToInt32(0xD83D) == 0xD83D;
    assert UnitsHash(u) == ToInt32(31 * 0xD83D + 0xDE00);
  }

  /** `String.hashCode` computed by the JDK's loop over the `char[]` value. */
  method ComputeStringHash(s: string) returns (h: int)
    ensures h == StringHash(s)
    ensures IsInt32(h)
  {
    var units := CodeUnits(s);
    h := 0;
    var i := 0;
    while i < |units|
      invariant 0 <= i <= |units|
      invariant h == UnitsHash(units[..i])
    {
      assert units[..i + 1][..i] == units[..i];
      h := ToInt32(31 * h + units[i]);
      i := i + 1;
    }
    assert units[..|units|] == units;
  }

  /** `hashCode`: the hash of the name alone, so paths that differ only in
      owner or descriptor collide. */
  function HashCode(p: MethodPath): (h: int)
    ensures IsInt32(h)
  {
    StringHash(p.name)
  }

  /** `hashCode` is consistent with `equals`. */
  lemma HashConsistentWithEquals(a: MethodPath, b: MethodPath)
    requires Equals(a, PathObj(b))
    ensures HashCode(a) == HashCode(b)
  {
  }

  /** Overloads of one method always share a hash bucket. */
  lemma OverloadsCollide(a: MethodPath, b: MethodPath)
    requires a.name == b.name
    ensures HashCode(a) == HashCode(b)
  {
  }

  // ---------------------------------------------------------------------------
  // toString and compareTo

  /** `toString`: `owner :: name desc`. */
  function ToString(p: MethodPath): (r: string)
    ensures StartsWith(r, p.owner)
    ensures EndsWith(r, p.desc)
    ensures |r| == |p.owner| + |p.name| + |p.desc| + 5
  {
    p.owner + " :: " + p.name + " " + p.desc
  }

  /** `compareTo`: `String.compareTo` of the two `toString` renderings. */
  function CompareTo(a: MethodPath, b: MethodPath): (r: int)
    ensures r == 0 <==> ToString(a) == ToString(b)
    ensures a == b ==> r == 0
  {
    CompareStringsZeroIffEqual(ToString(a), ToString(b));
    CompareStrings(ToString(a), ToString(b))
  }

  /** `compareTo` is antisymmetric. */
  lemma CompareToAntisymmetric(a: MethodPath, b: MethodPath)
    ensures CompareTo(a, b) == -CompareTo(b, a)
  {
    CompareStringsAntisymmetric(ToString(a), ToString(b));
  }

  /** `compareTo` orders paths transitively. */
  lemma CompareToTransitive(a: MethodPath, b: MethodPath, c: MethodPath)
    requires CompareTo(a, b) < 0 && CompareTo(b, c) < 0
    ensures CompareTo(a, c) < 0
  {
    CompareStringsTransitive(ToString(a), ToString(b), ToString(c));
  }

  /** `compareTo` is not consistent with `equals` for names holding a space:
      two different paths render alike and compare as 0. */
  lemma CompareToInconsistentWithEquals()
    ensures var a := MethodPath("x", "y z", "w");
            var b := MethodPath("x", "y", "z w");
            CompareTo(a, b) == 0 && !Equals(a, PathObj(b))
  {
    var a := MethodPath("x", "y z", "w");
    var b := MethodPath("x", "y", "z w");
    assert ToString(a) == "x :: y z w";
    assert ToString(b) == "x :: y z w";
  }

  /** Without spaces in owners and names (class and method names the Java
      compiler emits never hold one), the rendering is injective, so `compareTo` is consistent
      with `equals`. */
  lemma CompareToConsistentWithoutSpaces(a: MethodPath, b: MethodPath)
    requires !ContainsChar(a.name, ' ') && !ContainsChar(b.name, ' ')
    requires !ContainsChar(a.owner, ' ') && !ContainsChar(b.owner, ' ')
    ensures CompareTo(a, b) == 0 <==> Equals(a, PathObj(b))
  {
    if ToString(a) == ToString(b) {
      RenderingInjective(a, b);
    }
  }

  lemma RenderingInjective(a: MethodPath, b: MethodPath)
    requires !ContainsChar(a.name, ' ') && !ContainsChar(b.name, ' ')
    requires !ContainsChar(a.owner, ' ') && !ContainsChar(b.owner, ' ')
    requires ToString(a) == ToString(b)
    ensures a == b
  {
    var ra := " :: " + (a.name + (" " + a.desc));
    var rb := " :: " + (b.name + (" " + b.desc));
    RenderingShape(a);
    RenderingShape(b);
    SpaceFreePrefixUnique(a.owner, b.owner, ra, rb);
    AfterSeparator(a.name, b.name, a.desc, b.desc);
  }

  lemma RenderingShape(p: MethodPath)
    ensures ToString(p) == p.owner + (" :: " + (p.name + (" " + p.desc)))
  {
  }

  lemma AfterSeparator(n1: string, n2: string, d1: string, d2: string)
    requires !ContainsChar(n1, ' ') && !ContainsChar(n2, ' ')
    requires " :: " + (n1 + (" " + d1)) == " :: " + (n2 + (" " + d2))
    ensures n1 == n2 && d1 == d2
  {
    var ra := " :: " + (n1 + (" " + d1));
    var rb := " :: " + (n2 + (" " + d2));
    assert ra[4..] == n1 + (" " + d1);
    assert rb[4..] == n2 + (" " + d2);
    SpaceFreePrefixUnique(n1, n2, " " + d1, " " + d2);
    assert d1 == (" " + d1)[1..];
    assert d2 == (" " + d2)[1..];
  }

  /** A space-free word followed by a space-led rest is recovered uniquely. */
  lemma SpaceFreePrefixUnique(x: string, y: string, u: string, v: string)
    requires !ContainsChar(x, ' ') && !ContainsChar(y, ' ')
    requires |u| > 0 && u[0] == ' ' && |v| > 0 && v[0] == ' '
    requires x + u == y + v
    ensures x == y && u == v
  {
    var w := x + u;
    assert w[|x|] == ' ' && w[|y|] == ' ';
    if |x| == |y| {
      assert x == w[..|x|] && y == w[..|y|];
      assert u == w[|x|..] && v == w[|y|..];
    }
  }
}
