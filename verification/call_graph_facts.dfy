/** Properties of the program graph that relate several operations: how a
    `null` interface breaks the hierarchy walk, how a class's own declaration
    shadows inherited ones, and the graphs of the unit tests. */
module CallGraphFacts {
  import opened Wrappers
  import opened MethodPaths
  import opened CallGraphs

  /** A `null` among a class's own interfaces makes `getHierarchy` throw. */
  lemma NullInterfaceBreaksHierarchy(g: Graph, c: string, i: nat)
    requires Valid(g) && c in g.classes
    requires i < |g.classes[c].interfaces| && g.classes[c].interfaces[i].None?
    ensures Hierarchy(g, c).Failure?
  {
    var links := g.classes[c].interfaces;
    NullLinkBreaksList(g, links, RankOf(g)[c], i);
  }

  lemma {:induction false} NullLinkBreaksList(g: Graph, links: seq<Option<string>>, bound: nat, i: nat)
    requires Valid(g)
    requires forall k | 0 <= k < |links| ::
               links[k].Some? ==> links[k].value in g.classes && RankOf(g)[links[k].value] < bound
    requires i < |links| && links[i].None?
    ensures HierarchyOfAll(g, links, bound).Failure?
    decreases |links|
  {
    if i > 0 && links[0].Some? && Hierarchy(g, links[0].value).Success? {
      NullLinkBreaksList(g, links[1..], bound, i - 1);
    }
  }

  /** A method a class declares itself is what lookup on that class finds,
      whatever its ancestors declare. */
  lemma OwnDeclarationShadows(g: Graph, c: string, key: MethodKey)
    requires Valid(g) && c in g.classes && key in g.classes[c].methods
    requires Hierarchy(g, c).Success?
    ensures TryGetMethod(g, c, key) == Success(Some(PathOf(c, key)))
    ensures GetMethod(g, c, key) == Success(PathOf(c, key))
  {
  }

  /** A method that lookup finds is among the inherited methods. */
  lemma FoundMethodIsInherited(g: Graph, c: string, key: MethodKey)
    requires Valid(g) && c in g.classes
    requires TryGetMethod(g, c, key).Success? && TryGetMethod(g, c, key).value.Some?
    ensures TryGetMethod(g, c, key).value.value in MethodsIncludingInherited(g, c).value
  {
  }

  // ---------------------------------------------------------------------------
  // One level of the hierarchy walk

  /** A class with neither interfaces nor a superclass is its own hierarchy. */
  lemma HierarchyOfTop(g: Graph, c: string)
    requires Valid(g) && c in g.classes
    requires g.classes[c].interfaces == [] && g.classes[c].superclass.None?
    ensures Hierarchy(g, c) == Success([c])
  {
    assert [c] + [] + [] == [c];
  }

  /** A class without interfaces: itself, then its superclass's hierarchy. */
  lemma HierarchyOfSubclass(g: Graph, c: string, above: seq<string>)
    requires Valid(g) && c in g.classes
    requires g.classes[c].interfaces == [] && g.classes[c].superclass.Some?
    requires Hierarchy(g, g.classes[c].superclass.value) == Success(above)
    ensures Hierarchy(g, c) == Success([c] + above)
  {
    assert [c] + [] + above == [c] + above;
  }

  /** A class without a superclass: itself, then its interfaces' hierarchies. */
  lemma HierarchyOfImplementor(g: Graph, c: string, fromInterfaces: seq<string>)
    requires Valid(g) && c in g.classes && g.classes[c].superclass.None?
    requires HierarchyOfAll(g, g.classes[c].interfaces, RankOf(g)[c]) == Success(fromInterfaces)
    ensures Hierarchy(g, c) == Success([c] + fromInterfaces)
  {
    assert [c] + fromInterfaces + [] == [c] + fromInterfaces;
  }

  lemma OneLink(g: Graph, x: string, bound: nat, hx: seq<string>)
    requires Valid(g) && x in g.classes && RankOf(g)[x] < bound
    requires Hierarchy(g, x) == Success(hx)
    ensures HierarchyOfAll(g, [Some(x)], bound) == Success(hx)
  {
    assert [Some(x)][1..] == [];
    assert hx + [] == hx;
  }

  lemma TwoLinks(g: Graph, x: string, y: string, bound: nat, hx: seq<string>, hy: seq<string>)
    requires Valid(g) && x in g.classes && y in g.classes
    requires RankOf(g)[x] < bound && RankOf(g)[y] < bound
    requires Hierarchy(g, x) == Success(hx) && Hierarchy(g, y) == Success(hy)
    ensures HierarchyOfAll(g, [Some(x), Some(y)], bound) == Success(hx + hy)
  {
    assert [Some(x), Some(y)][1..] == [Some(y)];
    OneLink(g, y, bound, hy);
  }

  // ---------------------------------------------------------------------------
  // The graphs of the unit tests

  /** A graph of the unit tests: `BI` extends `AI`, `C` implements `BI` and
      `D` extends `C`; built through `addClass` and `addInterface`. */
  function TestHierarchyGraph(ai: string, bi: string, c: string, d: string): (g: Graph)
    requires ai != bi && ai != c && ai != d && bi != c && bi != d && c != d
    ensures g.classes.Keys == {ai, bi, c, d}
  {
    var g1 := AddClass(EmptyGraph, ai, None).value;
    var g2 := AddClass(g1, bi, Some(ai)).value;
    var g3 := AddClass(g2, c, None).value;
    var g4 := AddInterface(g3, c, Some(bi));
    AddClass(g4, d, Some(c)).value
  }

  /** The nodes of a graph shaped like the hierarchy test's. */
  ghost predicate HierarchyShaped(g: Graph, ai: string, bi: string, c: string, d: string) {
    && g.classes.Keys == {ai, bi, c, d}
    && g.classes[ai] == ClassNode(ai, None, [], [])
    && g.classes[bi] == ClassNode(bi, Some(ai), [], [])
    && g.classes[c] == ClassNode(c, None, [Some(bi)], [])
    && g.classes[d] == ClassNode(d, Some(c), [], [])
  }

  lemma HierarchyShapedValid(g: Graph, ai: string, bi: string, c: string, d: string)
    requires ai != bi && ai != c && ai != d && bi != c && bi != d && c != d
    requires HierarchyShaped(g, ai, bi, c, d)
    ensures Valid(g)
  {
    assert Ranked(g, map[ai := 0, bi := 1, c := 2, d := 3]);
  }

  lemma HierarchyGraphShape(ai: string, bi: string, c: string, d: string)
    requires ai != bi && ai != c && ai != d && bi != c && bi != d && c != d
    ensures HierarchyShaped(TestHierarchyGraph(ai, bi, c, d), ai, bi, c, d)
    ensures Valid(TestHierarchyGraph(ai, bi, c, d))
  {
    var g := TestHierarchyGraph(ai, bi, c, d);
    assert g.classes[c] == ClassNode(c, None, [Some(bi)], []);
    HierarchyShapedValid(g, ai, bi, c, d);
  }

  lemma HierarchyOfShaped(g: Graph, ai: string, bi: string, c: string, d: string)
    requires ai != bi && ai != c && ai != d && bi != c && bi != d && c != d
    requires Valid(g) && HierarchyShaped(g, ai, bi, c, d)
    ensures Hierarchy(g, d) == Success([d, c, bi, ai])
  {
    var r := RankOf(g);
    assert g.classes[ai].interfaces == [] && g.classes[ai].superclass.None?;
    HierarchyOfTop(g, ai);
    assert g.classes[bi].superclass == Some(ai);
    HierarchyOfSubclass(g, bi, [ai]);
    assert [bi] + [ai] == [bi, ai];
    assert g.classes[c].interfaces[0] == Some(bi);
    assert r[bi] < r[c];
    OneLink(g, bi, r[c], [bi, ai]);
    HierarchyOfImplementor(g, c, [bi, ai]);
    assert [c] + [bi, ai] == [c, bi, ai];
    assert g.classes[d].superclass == Some(c) && g.classes[d].interfaces == [];
    HierarchyOfSubclass(g, d, [c, bi, ai]);
    assert [d] + [c, bi, ai] == [d, c, bi, ai];
  }

  /** The hierarchy of `D` is `D, C, BI, AI`: the class, then its interface's
      full hierarchy, then the superclass's. */
  lemma HierarchyExample(ai: string, bi: string, c: string, d: string)
    requires ai != bi && ai != c && ai != d && bi != c && bi != d && c != d
    ensures Valid(TestHierarchyGraph(ai, bi, c, d))
    ensures Hierarchy(TestHierarchyGraph(ai, bi, c, d), d) == Success([d, c, bi, ai])
  {
    HierarchyGraphShape(ai, bi, c, d);
    HierarchyOfShaped(TestHierarchyGraph(ai, bi, c, d), ai, bi, c, d);
  }

  /** A graph of the unit tests: `B` extends `A`, and both declare the same method. */
  function TestOverrideGraph(a: string, b: string, foo: MethodKey): (g: Graph)
    requires a != b
  {
    var g1 := AddClass(EmptyGraph, a, None).value;
    var g2 := AddClass(g1, b, Some(a)).value;
    var g3 := AddMethod(g2, a, foo).value;
    AddMethod(g3, b, foo).value
  }

  /** The nodes of a graph shaped like the override test's. */
  ghost predicate OverrideShaped(g: Graph, a: string, b: string, foo: MethodKey) {
    && g.classes.Keys == {a, b}
    && g.classes[a] == ClassNode(a, None, [], [foo])
    && g.classes[b] == ClassNode(b, Some(a), [], [foo])
  }

  lemma OverrideGraphShape(a: string, b: string, foo: MethodKey)
    requires a != b
    ensures OverrideShaped(TestOverrideGraph(a, b, foo), a, b, foo)
  {
  }

  lemma OverrideShapedFacts(g: Graph, a: string, b: string, foo: MethodKey)
    requires a != b && OverrideShaped(g, a, b, foo)
    ensures Valid(g)
    ensures GetMethod(g, a, foo) == Success(PathOf(a, foo))
    ensures GetMethod(g, b, foo) == Success(PathOf(b, foo))
    ensures MethodsIncludingInherited(g, b).Success?
    ensures PathOf(a, foo) in MethodsIncludingInherited(g, b).value
    ensures PathOf(b, foo) in MethodsIncludingInherited(g, b).value
  {
    assert Ranked(g, map[a := 0, b := 1]);
    HierarchyOfTop(g, a);
    HierarchyOfSubclass(g, b, [a]);
    OwnDeclarationShadows(g, a, foo);
    OwnDeclarationShadows(g, b, foo);
  }

  /** `B`'s inherited methods are its own `foo`, then the overridden one. */
  lemma OverrideInheritedList(g: Graph, a: string, b: string, foo: MethodKey)
    requires a != b && OverrideShaped(g, a, b, foo)
    ensures Valid(g)
    ensures MethodsIncludingInherited(g, b) == Success([PathOf(b, foo), PathOf(a, foo)])
  {
    OverrideShapedFacts(g, a, b, foo);
    HierarchyOfTop(g, a);
    HierarchyOfSubclass(g, b, [a]);
    assert OwnMethods(g, a) == [PathOf(a, foo)];
    assert OwnMethods(g, b) == [PathOf(b, foo)];
    assert [b, a][1..] == [a];
    assert LocalMethodsOf(g, [a]) == [PathOf(a, foo)] + LocalMethodsOf(g, []);
    assert LocalMethodsOf(g, [b, a]) == [PathOf(b, foo)] + LocalMethodsOf(g, [a]);
    assert Hierarchy(g, b) == Success([b, a]) by {
      assert [b] + [a] == [b, a];
    }
    assert LocalMethodsOf(g, []) == [];
    assert LocalMethodsOf(g, [b, a]) == [PathOf(b, foo), PathOf(a, foo)];
    assert MethodsIncludingInherited(g, b) == Success(LocalMethodsOf(g, [b, a]));
  }

  /** Each class finds its own declaration, and `B`'s inherited methods are
      exactly two: its own and the overridden one. */
  lemma OverrideExample(a: string, b: string, foo: MethodKey)
    requires a != b
    ensures var g := TestOverrideGraph(a, b, foo);
            && Valid(g)
            && GetMethod(g, a, foo) == Success(PathOf(a, foo))
            && GetMethod(g, b, foo) == Success(PathOf(b, foo))
            && MethodsIncludingInherited(g, b).Success?
            && PathOf(a, foo) in MethodsIncludingInherited(g, b).value
            && PathOf(b, foo) in MethodsIncludingInherited(g, b).value
            && |MethodsIncludingInherited(g, b).value| == 2
            && MethodsIncludingInherited(g, b).value == [PathOf(b, foo), PathOf(a, foo)]
  {
    OverrideGraphShape(a, b, foo);
    OverrideShapedFacts(TestOverrideGraph(a, b, foo), a, b, foo);
    OverrideInheritedList(TestOverrideGraph(a, b, foo), a, b, foo);
  }

  /** A graph of the unit tests: `C` implements `AI`, which declares `foo`, and
      `BI`, which declares a different `bar`. */
  function TestInterfaceGraph(ai: string, bi: string, c: string, foo: MethodKey, bar: MethodKey): (g: Graph)
    requires ai != bi && ai != c && bi != c
  {
    var g1 := AddClass(EmptyGraph, ai, None).value;
    var g2 := AddClass(g1, bi, None).value;
    var g3 := AddMethod(g2, ai, foo).value;
    var g4 := AddMethod(g3, bi, bar).value;
    var g5 := AddClass(g4, c, None).value;
    AddInterface(AddInterface(g5, c, Some(ai)), c, Some(bi))
  }

  /** The nodes of a graph shaped like the interface test's. */
  ghost predicate InterfaceShaped(g: Graph, ai: string, bi: string, c: string, foo: MethodKey, bar: MethodKey) {
    && g.classes.Keys == {ai, bi, c}
    && g.classes[ai] == ClassNode(ai, None, [], [foo])
    && g.classes[bi] == ClassNode(bi, None, [], [bar])
    && g.classes[c] == ClassNode(c, None, [Some(ai), Some(bi)], [])
  }

  lemma InterfaceShapedValid(g: Graph, ai: string, bi: string, c: string, foo: MethodKey, bar: MethodKey)
    requires ai != bi && ai != c && bi != c
    requires InterfaceShaped(g, ai, bi, c, foo, bar)
    ensures Valid(g)
  {
    assert Ranked(g, map[ai := 0, bi := 0, c := 1]);
  }

  lemma InterfaceGraphShape(ai: string, bi: string, c: string, foo: MethodKey, bar: MethodKey)
    requires ai != bi && ai != c && bi != c
    ensures InterfaceShaped(TestInterfaceGraph(ai, bi, c, foo, bar), ai, bi, c, foo, bar)
    ensures Valid(TestInterfaceGraph(ai, bi, c, foo, bar))
  {
    var g := TestInterfaceGraph(ai, bi, c, foo, bar);
    assert g.classes[c].interfaces == [Some(ai)] + [Some(bi)];
    InterfaceShapedValid(g, ai, bi, c, foo, bar);
  }

  lemma HierarchyOfInterfaceShaped(g: Graph, ai: string, bi: string, c: string, foo: MethodKey, bar: MethodKey)
    requires ai != bi && ai != c && bi != c
    requires Valid(g) && InterfaceShaped(g, ai, bi, c, foo, bar)
    ensures Hierarchy(g, c) == Success([c, ai, bi])
  {
    var r := RankOf(g);
    assert g.classes[ai].interfaces == [] && g.classes[ai].superclass.None?;
    assert g.classes[bi].interfaces == [] && g.classes[bi].superclass.None?;
    HierarchyOfTop(g, ai);
    HierarchyOfTop(g, bi);
    assert g.classes[c].interfaces[0] == Some(ai) && g.classes[c].interfaces[1] == Some(bi);
    assert r[ai] < r[c] && r[bi] < r[c];
    TwoLinks(g, ai, bi, r[c], [ai], [bi]);
    assert [ai] + [bi] == [ai, bi];
    HierarchyOfImplementor(g, c, [ai, bi]);
    assert [c] + [ai, bi] == [c, ai, bi];
  }

  lemma InterfaceGraphHierarchy(ai: string, bi: string, c: string, foo: MethodKey, bar: MethodKey)
    requires ai != bi && ai != c && bi != c
    ensures Valid(TestInterfaceGraph(ai, bi, c, foo, bar))
    ensures Hierarchy(TestInterfaceGraph(ai, bi, c, foo, bar), c) == Success([c, ai, bi])
  {
    InterfaceGraphShape(ai, bi, c, foo, bar);
    HierarchyOfInterfaceShaped(TestInterfaceGraph(ai, bi, c, foo, bar), ai, bi, c, foo, bar);
  }

  lemma InterfaceShapedLookup(g: Graph, ai: string, bi: string, c: string, foo: MethodKey, bar: MethodKey)
    requires ai != bi && ai != c && bi != c && foo != bar
    requires Valid(g) && InterfaceShaped(g, ai, bi, c, foo, bar)
    requires Hierarchy(g, c) == Success([c, ai, bi])
    ensures GetMethod(g, c, foo) == Success(PathOf(ai, foo))
    ensures GetMethod(g, c, bar) == Success(PathOf(bi, bar))
  {
    var hs := [c, ai, bi];
    assert hs[1..] == [ai, bi] && hs[1..][1..] == [bi];
    assert FirstDeclaring(g, hs, foo) == Some(1);
    assert FirstDeclaring(g, hs[1..][1..], bar) == Some(0);
    assert FirstDeclaring(g, hs, bar) == Some(2);
  }

  /** Methods declared only in interfaces are found through the class. */
  lemma InterfaceMethodsExample(ai: string, bi: string, c: string, foo: MethodKey, bar: MethodKey)
    requires ai != bi && ai != c && bi != c && foo != bar
    ensures var g := TestInterfaceGraph(ai, bi, c, foo, bar);
            && Valid(g)
            && GetMethod(g, c, foo) == Success(PathOf(ai, foo))
            && GetMethod(g, c, bar) == Success(PathOf(bi, bar))
  {
    var g := TestInterfaceGraph(ai, bi, c, foo, bar);
    InterfaceGraphShape(ai, bi, c, foo, bar);
    HierarchyOfInterfaceShaped(g, ai, bi, c, foo, bar);
    InterfaceShapedLookup(g, ai, bi, c, foo, bar);
  }

  /** A diamond: `A` implements `I`, which declares `foo`, and `B` extends
      `A` and implements `I` as well. */
  function TestDiamondGraph(i: string, a: string, b: string, foo: MethodKey): (g: Graph)
    requires i != a && i != b && a != b
  {
    var g1 := AddClass(EmptyGraph, i, None).value;
    var g2 := AddMethod(g1, i, foo).value;
    var g3 := AddClass(g2, a, None).value;
    var g4 := AddInterface(g3, a, Some(i));
    var g5 := AddClass(g4, b, Some(a)).value;
    AddInterface(g5, b, Some(i))
  }

  ghost predicate DiamondShaped(g: Graph, i: string, a: string, b: string, foo: MethodKey) {
    && g.classes.Keys == {i, a, b}
    && g.classes[i] == ClassNode(i, None, [], [foo])
    && g.classes[a] == ClassNode(a, None, [Some(i)], [])
    && g.classes[b] == ClassNode(b, Some(a), [Some(i)], [])
  }

  lemma DiamondGraphShape(i: string, a: string, b: string, foo: MethodKey)
    requires i != a && i != b && a != b
    ensures DiamondShaped(TestDiamondGraph(i, a, b, foo), i, a, b, foo)
    ensures Valid(TestDiamondGraph(i, a, b, foo))
  {
    var g := TestDiamondGraph(i, a, b, foo);
    assert g.classes[a] == ClassNode(a, None, [Some(i)], []);
    assert g.classes[b] == ClassNode(b, Some(a), [Some(i)], []);
    DiamondShapedValid(g, i, a, b, foo);
  }

  lemma DiamondShapedValid(g: Graph, i: string, a: string, b: string, foo: MethodKey)
    requires i != a && i != b && a != b
    requires DiamondShaped(g, i, a, b, foo)
    ensures Valid(g)
  {
    assert Ranked(g, map[i := 0, a := 1, b := 2]);
  }

  lemma HierarchyOfDiamond(g: Graph, i: string, a: string, b: string, foo: MethodKey)
    requires i != a && i != b && a != b
    requires Valid(g) && DiamondShaped(g, i, a, b, foo)
    ensures Hierarchy(g, b) == Success([b, i, a, i])
  {
    var r := RankOf(g);
    HierarchyOfTop(g, i);
    assert g.classes[a].interfaces[0] == Some(i) && r[i] < r[a];
    OneLink(g, i, r[a], [i]);
    HierarchyOfImplementor(g, a, [i]);
    assert g.classes[a].interfaces == [Some(i)] && g.classes[b].interfaces == [Some(i)];
    assert [a] + [i] == [a, i];
    assert r[i] < r[b];
    OneLink(g, i, r[b], [i]);
    assert HierarchyOfAll(g, g.classes[b].interfaces, r[b]) == Success([i]);
    assert g.classes[b].superclass == Some(a);
    assert Hierarchy(g, a) == Success([a, i]);
    assert [b] + [i] + [a, i] == [b, i, a, i];
  }

  lemma LocalMethodsOfOne(g: Graph, c: string, own: seq<MethodPath>)
    requires c in g.classes && OwnMethods(g, c) == own
    ensures LocalMethodsOf(g, [c]) == own
  {
    assert [c][1..] == [];
    assert own + [] == own;
  }

  lemma DiamondShapedMethods(g: Graph, i: string, a: string, b: string, foo: MethodKey)
    requires i != a && i != b && a != b
    requires DiamondShaped(g, i, a, b, foo)
    ensures LocalMethodsOf(g, [b, i, a, i]) == [PathOf(i, foo), PathOf(i, foo)]
  {
    var fi := [PathOf(i, foo)];
    assert OwnMethods(g, i) == fi by {
      assert PathsIn(i, [foo]) == fi;
    }
    assert OwnMethods(g, a) == [] && OwnMethods(g, b) == [];
    LocalMethodsOfOne(g, i, fi);
    var h3 := [a, i];
    assert h3[1..] == [i];
    assert LocalMethodsOf(g, h3) == fi;
    var h2 := [i, a, i];
    assert h2[1..] == h3;
    assert LocalMethodsOf(g, h2) == fi + fi;
    var h1 := [b, i, a, i];
    assert h1[1..] == h2;
    assert LocalMethodsOf(g, h1) == fi + fi;
  }

  /** The walk visits `I` twice, once through `B` and once through `A`, and
      `getMethodsIncludingInherited` lists `I.foo` once per visit. */
  lemma DiamondExample(i: string, a: string, b: string, foo: MethodKey)
    requires i != a && i != b && a != b
    ensures var g := TestDiamondGraph(i, a, b, foo);
            && Valid(g)
            && Hierarchy(g, b) == Success([b, i, a, i])
            && MethodsIncludingInherited(g, b) == Success([PathOf(i, foo), PathOf(i, foo)])
  {
    var g := TestDiamondGraph(i, a, b, foo);
    DiamondGraphShape(i, a, b, foo);
    HierarchyOfDiamond(g, i, a, b, foo);
    DiamondShapedMethods(g, i, a, b, foo);
  }

  /** Two calls between the same pair of methods are two call sites. */
  lemma CallsAreNotDeduplicated(g: Graph, from: MethodPath, to: MethodPath)
    ensures |Outgoing(AddCall(AddCall(g, from, to), from, to), from)| == |Outgoing(g, from)| + 2
    ensures |Incoming(AddCall(AddCall(g, from, to), from, to), to)| == |Incoming(g, to)| + 2
  {
  }
}
