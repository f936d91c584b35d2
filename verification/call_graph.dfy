/** The program graph: classes keyed by internal name, each with an optional
    superclass, a list of interfaces, and its own methods keyed by (name,
    descriptor); and call sites between methods, recorded in both directions.

    A method node is named by the `MethodPath` of the class that declares it.
    Object references become class names: an interface link may be `None`,
    standing for the `null` that `addInterface` accepts. Call sites live in one
    append-only log; a method's outgoing and incoming lists are the entries of
    the log that leave from, respectively arrive at, that method, in order. */
module CallGraphs {
  import opened Wrappers
  import opened MethodPaths

  datatype MethodKey = MethodKey(name: string, desc: string)

  function KeyOf(p: MethodPath): MethodKey {
    MethodKey(p.name, p.desc)
  }

  function PathOf(cls: string, k: MethodKey): MethodPath {
    MethodPath(cls, k.name, k.desc)
  }

  datatype ClassNode = ClassNode(
    name: string,
    superclass: Option<string>,
    interfaces: seq<Option<string>>,
    methods: seq<MethodKey>)

  datatype CallSite = CallSite(from: MethodPath, to: MethodPath)

  datatype Graph = Graph(classes: map<string, ClassNode>, calls: seq<CallSite>)

  /** The exceptions the graph throws: `IllegalArgumentException` for a class
      or method added twice and for a missing method, `IllegalStateException`
      for a missing class, and a `NullPointerException` when a hierarchy walk
      meets a `null` interface. */
  datatype GraphError =
    | ClassAlreadyAdded(className: string)
    | NoSuchClass(className: string)
    | MethodAlreadyAdded(owner: string, key: MethodKey)
    | NoSuchMethod(owner: string, key: MethodKey)
    | NullInterface

  const EmptyGraph: Graph := Graph(map[], [])

  // ---------------------------------------------------------------------------
  // Well-formedness

  /** Every node is stored under its own name and links only to stored nodes. */
  ghost predicate LinksPresent(g: Graph) {
    forall c | c in g.classes ::
      g.classes[c].name == c
      && (g.classes[c].superclass.Some? ==> g.classes[c].superclass.value in g.classes)
      && (forall i | 0 <= i < |g.classes[c].interfaces| ::
            g.classes[c].interfaces[i].Some? ==> g.classes[c].interfaces[i].value in g.classes)
  }

  /** `r` strictly decreases along every superclass and interface link. */
  ghost predicate Ranked(g: Graph, r: map<string, nat>) {
    forall c | c in g.classes ::
      c in r
      && (g.classes[c].superclass.Some? ==>
            g.classes[c].superclass.value in r && r[g.classes[c].superclass.value] < r[c])
      && (forall i | 0 <= i < |g.classes[c].interfaces| ::
            g.classes[c].interfaces[i].Some? ==>
              g.classes[c].interfaces[i].value in r && r[g.classes[c].interfaces[i].value] < r[c])
  }

  /** The super/interface relation has no cycle: `getHierarchy` recurses with
      no cycle check, so it terminates only on such graphs. */
  ghost predicate Acyclic(g: Graph) {
    exists r :: Ranked(g, r)
  }

  ghost predicate Valid(g: Graph) {
    LinksPresent(g) && Acyclic(g)
  }

  ghost function RankOf(g: Graph): (r: map<string, nat>)
    requires Acyclic(g)
    ensures Ranked(g, r)
  {
    var r :| Ranked(g, r); r
  }

  /** No interface link is `null`. */
  ghost predicate NullFree(g: Graph) {
    forall c | c in g.classes ::
      forall i | 0 <= i < |g.classes[c].interfaces| :: g.classes[c].interfaces[i].Some?
  }

  // ---------------------------------------------------------------------------
  // Building the graph

  predicate HasClass(g: Graph, name: string) {
    name in g.classes
  }

  /** `addClass(name, superclass)`: refused when the name is present;
      otherwise exactly one new node, with no interfaces and no methods. */
  function AddClass(g: Graph, name: string, superclass: Option<string>): (r: Result<Graph, GraphError>)
    ensures r.Failure? <==> HasClass(g, name)
    ensures r.Failure? ==> r.error == ClassAlreadyAdded(name)
    ensures r.Success? ==>
      && r.value.classes == g.classes[name := ClassNode(name, superclass, [], [])]
      && r.value.calls == g.calls
      && HasClass(r.value, name)
  {
    if HasClass(g, name) then Failure(ClassAlreadyAdded(name))
    else Success(Graph(g.classes[name := ClassNode(name, superclass, [], [])], g.calls))
  }

  /** `getClass`: the node, or `IllegalStateException` when absent. */
  function GetClass(g: Graph, name: string): (r: Result<ClassNode, GraphError>)
    ensures r.Success? <==> HasClass(g, name)
    ensures r.Success? ==> r.value == g.classes[name]
    ensures r.Failure? ==> r.error == NoSuchClass(name)
  {
    if name in g.classes then Success(g.classes[name]) else Failure(NoSuchClass(name))
  }

  /** `tryGetClass`: the node, or `null`. */
  function TryGetClass(g: Graph, name: string): (r: Option<ClassNode>)
    ensures r.Some? <==> HasClass(g, name)
    ensures r.Some? ==> r.value == g.classes[name]
  {
    if name in g.classes then Some(g.classes[name]) else None
  }

  /** `ClassNode.addInterface`: appends the link, `null` included, and changes
      nothing else. */
  function AddInterface(g: Graph, cls: string, iface: Option<string>): (r: Graph)
    requires cls in g.classes
    ensures r.classes.Keys == g.classes.Keys && r.calls == g.calls
    ensures r.classes[cls].interfaces == g.classes[cls].interfaces + [iface]
    ensures r.classes[cls].superclass == g.classes[cls].superclass
    ensures r.classes[cls].methods == g.classes[cls].methods
    ensures forall c | c in g.classes && c != cls :: r.classes[c] == g.classes[c]
  {
    var node := g.classes[cls];
    g.(classes := g.classes[cls := node.(interfaces := node.interfaces + [iface])])
  }

  /** `ClassNode.tryGetLocalMethod`: the class's own method with that key. */
  function TryGetLocalMethod(g: Graph, cls: string, key: MethodKey): (r: Option<MethodPath>)
    requires cls in g.classes
    ensures r.Some? <==> key in g.classes[cls].methods
    ensures r.Some? ==> r.value.owner == cls && KeyOf(r.value) == key
  {
    if key in g.classes[cls].methods then Some(PathOf(cls, key)) else None
  }

  /** `ClassNode.addMethod`: refused when the class already declares the same
      (name, descriptor), so overloads with another descriptor are accepted. */
  function AddMethod(g: Graph, cls: string, key: MethodKey): (r: Result<Graph, GraphError>)
    requires cls in g.classes
    ensures r.Failure? <==> key in g.classes[cls].methods
    ensures r.Failure? ==> r.error == MethodAlreadyAdded(cls, key)
    ensures r.Success? ==>
      && r.value.classes.Keys == g.classes.Keys && r.value.calls == g.calls
      && r.value.classes[cls].methods == g.classes[cls].methods + [key]
      && r.value.classes[cls].superclass == g.classes[cls].superclass
      && r.value.classes[cls].interfaces == g.classes[cls].interfaces
      && (forall c | c in g.classes && c != cls :: r.value.classes[c] == g.classes[c])
  {
    if key in g.classes[cls].methods then Failure(MethodAlreadyAdded(cls, key))
    else
      var node := g.classes[cls];
      Success(g.(classes := g.classes[cls := node.(methods := node.methods + [key])]))
  }

  // ---------------------------------------------------------------------------
  // Call sites

  /** The call sites of a log that leave from `m`, in log order. */
  function OutgoingIn(log: seq<CallSite>, m: MethodPath): (r: seq<CallSite>)
    ensures forall i | 0 <= i < |r| :: r[i].from == m && r[i] in log
    ensures |r| <= |log|
  {
    if |log| == 0 then []
    else OutgoingIn(log[..|log| - 1], m) + (if log[|log| - 1].from == m then [log[|log| - 1]] else [])
  }

  /** The outgoing sites are exactly the logged sites leaving from `m`. */
  lemma {:induction false} OutgoingExact(log: seq<CallSite>, m: MethodPath, s: CallSite)
    ensures s in OutgoingIn(log, m) <==> s in log && s.from == m
    decreases |log|
  {
    if |log| > 0 {
      var init := log[..|log| - 1];
      OutgoingExact(init, m, s);
      assert log == init + [log[|log| - 1]];
    }
  }

  /** The call sites of a log that arrive at `m`, in log order. */
  function IncomingIn(log: seq<CallSite>, m: MethodPath): (r: seq<CallSite>)
    ensures forall i | 0 <= i < |r| :: r[i].to == m && r[i] in log
    ensures |r| <= |log|
  {
    if |log| == 0 then []
    else IncomingIn(log[..|log| - 1], m) + (if log[|log| - 1].to == m then [log[|log| - 1]] else [])
  }

  function Outgoing(g: Graph, m: MethodPath): seq<CallSite> {
    OutgoingIn(g.calls, m)
  }

  function Incoming(g: Graph, m: MethodPath): seq<CallSite> {
    IncomingIn(g.calls, m)
  }

  /** `addCall(from, to)`: one new call site, appended to the caller's
      outgoing list and to the callee's incoming list and to no other list.
      Nothing is deduplicated; classes are untouched. */
  function AddCall(g: Graph, from: MethodPath, to: MethodPath): (r: Graph)
    ensures r.classes == g.classes && r.calls == g.calls + [CallSite(from, to)]
    ensures Outgoing(r, from) == Outgoing(g, from) + [CallSite(from, to)]
    ensures Incoming(r, to) == Incoming(g, to) + [CallSite(from, to)]
    ensures forall m | m != from :: Outgoing(r, m) == Outgoing(g, m)
    ensures forall m | m != to :: Incoming(r, m) == Incoming(g, m)
  {
    var r := g.(calls := g.calls + [CallSite(from, to)]);
    assert r.calls[..|r.calls| - 1] == g.calls;
    r
  }

  /** Appending a batch of call sites that all leave `from` extends the
      outgoing list of `from` by that batch and no other outgoing list. */
  lemma {:induction false} OutgoingOfBatch(log: seq<CallSite>, from: MethodPath, sites: seq<CallSite>)
    requires forall i | 0 <= i < |sites| :: sites[i].from == from
    ensures OutgoingIn(log + sites, from) == OutgoingIn(log, from) + sites
    ensures forall m | m != from :: OutgoingIn(log + sites, m) == OutgoingIn(log, m)
    decreases |sites|
  {
    if |sites| == 0 {
      assert log + sites == log;
    } else {
      var init := sites[..|sites| - 1];
      var last := sites[|sites| - 1];
      assert (log + sites)[..|log + sites| - 1] == log + init;
      assert (log + sites)[|log + sites| - 1] == last;
      OutgoingOfBatch(log, from, init);
      assert init + [last] == sites;
      assert OutgoingIn(log, from) + init + [last] == OutgoingIn(log, from) + sites;
    }
  }

  // ---------------------------------------------------------------------------
  // Hierarchy

  /** `getHierarchy`: the class itself, then the full hierarchy of each of its
      own interfaces in declaration order, then the same for the superclass,
      and so on up the superclass chain. A `null` interface makes the walk
      throw. */
  function Hierarchy(g: Graph, c: string): (r: Result<seq<string>, GraphError>)
    requires Valid(g) && c in g.classes
    ensures r.Success? ==> |r.value| > 0 && r.value[0] == c
    ensures r.Success? ==> forall x | x in r.value :: x in g.classes
    ensures r.Failure? ==> r.error == NullInterface
    decreases RankOf(g)[c], 1
  {
    var node := g.classes[c];
    var fromInterfaces :- HierarchyOfAll(g, node.interfaces, RankOf(g)[c]);
    var fromSuper :- if node.superclass.Some? then Hierarchy(g, node.superclass.value) else Success([]);
    Success([c] + fromInterfaces + fromSuper)
  }

  /** The hierarchies of a list of interface links, concatenated. */
  function HierarchyOfAll(g: Graph, links: seq<Option<string>>, ghost bound: nat): (r: Result<seq<string>, GraphError>)
    requires Valid(g)
    requires forall i | 0 <= i < |links| ::
               links[i].Some? ==> links[i].value in g.classes && RankOf(g)[links[i].value] < bound
    ensures r.Success? ==> forall x | x in r.value :: x in g.classes
    ensures r.Failure? ==> r.error == NullInterface
    decreases bound, 0, |links|
  {
    if |links| == 0 then Success([])
    else if links[0].None? then Failure(NullInterface)
    else
      var first :- Hierarchy(g, links[0].value);
      var rest :- HierarchyOfAll(g, links[1..], bound);
      Success(first + rest)
  }

  /** `x` is `c` or reachable from it along superclass and interface links. */
  ghost predicate Reaches(g: Graph, c: string, x: string)
    requires Valid(g) && c in g.classes
    decreases RankOf(g)[c]
  {
    var node := g.classes[c];
    x == c
    || (node.superclass.Some? && Reaches(g, node.superclass.value, x))
    || (exists i | 0 <= i < |node.interfaces| ::
          node.interfaces[i].Some? && Reaches(g, node.interfaces[i].value, x))
  }

  /** On a graph without `null` interfaces the hierarchy is always defined and
      lists exactly the classes reachable along superclass and interface
      links. */
  lemma {:induction false} HierarchyIsReachable(g: Graph, c: string, x: string)
    requires Valid(g) && NullFree(g) && c in g.classes
    ensures Hierarchy(g, c).Success?
    ensures x in Hierarchy(g, c).value <==> Reaches(g, c, x)
    decreases RankOf(g)[c], 1
  {
    var node := g.classes[c];
    HierarchyOfAllIsReachable(g, node.interfaces, RankOf(g)[c], x);
    if node.superclass.Some? {
      HierarchyIsReachable(g, node.superclass.value, x);
    }
  }

  lemma {:induction false} HierarchyOfAllIsReachable(g: Graph, links: seq<Option<string>>, bound: nat, x: string)
    requires Valid(g) && NullFree(g)
    requires forall i | 0 <= i < |links| ::
               links[i].Some? && links[i].value in g.classes && RankOf(g)[links[i].value] < bound
    ensures HierarchyOfAll(g, links, bound).Success?
    ensures x in HierarchyOfAll(g, links, bound).value
        <==> exists i | 0 <= i < |links| :: Reaches(g, links[i].value, x)
    decreases bound, 0, |links|
  {
    if |links| > 0 {
      HierarchyIsReachable(g, links[0].value, x);
      HierarchyOfAllIsReachable(g, links[1..], bound, x);
      var rest := links[1..];
      if exists i | 0 <= i < |links| :: Reaches(g, links[i].value, x) {
        var i :| 0 <= i < |links| && Reaches(g, links[i].value, x);
        if i > 0 {
          assert rest[i - 1] == links[i];
        }
      }
      if exists i | 0 <= i < |rest| :: Reaches(g, rest[i].value, x) {
        var i :| 0 <= i < |rest| && Reaches(g, rest[i].value, x);
        assert links[i + 1] == rest[i];
      }
    }
  }

  // ---------------------------------------------------------------------------
  // Method lookup

  /** Index of the first class in `hs` that declares `key` itself. */
  function FirstDeclaring(g: Graph, hs: seq<string>, key: MethodKey): (r: Option<nat>)
    requires forall x | x in hs :: x in g.classes
    ensures r.Some? ==> r.value < |hs| && key in g.classes[hs[r.value]].methods
    ensures r.Some? ==> forall j | 0 <= j < r.value :: key !in g.classes[hs[j]].methods
    ensures r.None? <==> forall j | 0 <= j < |hs| :: key !in g.classes[hs[j]].methods
  {
    if |hs| == 0 then None
    else if key in g.classes[hs[0]].methods then Some(0)
    else
      match FirstDeclaring(g, hs[1..], key)
      case None => None
      case Some(i) => Some(i + 1)
  }

  /** `tryGetMethod`: the first local match along `getHierarchy`, so the most
      derived declaration wins; `None` when no class of the hierarchy
      declares the key. */
  function TryGetMethod(g: Graph, c: string, key: MethodKey): (r: Result<Option<MethodPath>, GraphError>)
    requires Valid(g) && c in g.classes
    ensures r.Success? <==> Hierarchy(g, c).Success?
    ensures r.Success? && r.value.Some? ==>
      var hs := Hierarchy(g, c).value;
      && KeyOf(r.value.value) == key
      && r.value.value.owner in hs
      && key in g.classes[r.value.value.owner].methods
      && (exists i | 0 <= i < |hs| :: hs[i] == r.value.value.owner
            && forall j | 0 <= j < i :: key !in g.classes[hs[j]].methods)
    ensures r.Success? && r.value.None? ==>
      forall x | x in Hierarchy(g, c).value :: key !in g.classes[x].methods
  {
    var hs :- Hierarchy(g, c);
    match FirstDeclaring(g, hs, key)
    case None => Success(None)
    case Some(i) => Success(Some(PathOf(hs[i], key)))
  }

  /** `getMethod`: like `tryGetMethod`, but a missing method is an error. */
  function GetMethod(g: Graph, c: string, key: MethodKey): (r: Result<MethodPath, GraphError>)
    requires Valid(g) && c in g.classes
    ensures r.Success? <==> TryGetMethod(g, c, key).Success? && TryGetMethod(g, c, key).value.Some?
    ensures r.Success? ==> r.value == TryGetMethod(g, c, key).value.value
    ensures Hierarchy(g, c).Success? && r.Failure? ==> r.error == NoSuchMethod(c, key)
  {
    var found :- TryGetMethod(g, c, key);
    if found.None? then Failure(NoSuchMethod(c, key)) else Success(found.value)
  }

  /** `hasMethod`: whether `tryGetMethod` finds something. */
  function HasMethod(g: Graph, c: string, key: MethodKey): (r: Result<bool, GraphError>)
    requires Valid(g) && c in g.classes
    ensures r.Success? <==> Hierarchy(g, c).Success?
    ensures r.Success? ==>
      (r.value <==> exists x | x in Hierarchy(g, c).value :: key in g.classes[x].methods)
  {
    var found :- TryGetMethod(g, c, key);
    Success(found.Some?)
  }

  /** The paths of `keys` declared in class `c`, in order. */
  function PathsIn(c: string, keys: seq<MethodKey>): (r: seq<MethodPath>)
    ensures |r| == |keys|
    ensures forall i | 0 <= i < |r| :: r[i] == PathOf(c, keys[i])
    decreases |keys|
  {
    if |keys| == 0 then [] else [PathOf(c, keys[0])] + PathsIn(c, keys[1..])
  }

  /** A class's own methods, in declaration order. */
  function OwnMethods(g: Graph, c: string): seq<MethodPath>
    requires c in g.classes
  {
    PathsIn(c, g.classes[c].methods)
  }

  /** How often `m` stands among its owner's declared methods: at most once in
      a graph built by `addMethod`, which refuses duplicates. */
  function DeclaredCount(g: Graph, m: MethodPath): nat {
    if m.owner in g.classes then multiset(g.classes[m.owner].methods)[KeyOf(m)] else 0
  }

  /** Every class's own methods, in order, for the classes of `hs` in order. */
  function LocalMethodsOf(g: Graph, hs: seq<string>): (r: seq<MethodPath>)
    requires forall x | x in hs :: x in g.classes
    ensures forall m :: m in r <==> m.owner in hs && KeyOf(m) in g.classes[m.owner].methods
    decreases |hs|
  {
    if |hs| == 0 then []
    else
      var c := hs[0];
      var own := OwnMethods(g, c);
      assert forall m :: m in own <==> m.owner == c && KeyOf(m) in g.classes[c].methods by {
        forall m ensures m in own <==> m.owner == c && KeyOf(m) in g.classes[c].methods {
          if m.owner == c && KeyOf(m) in g.classes[c].methods {
            var i :| 0 <= i < |g.classes[c].methods| && g.classes[c].methods[i] == KeyOf(m);
            assert own[i] == m;
          }
        }
      }
      own + LocalMethodsOf(g, hs[1..])
  }

  /** The methods of a list of classes are those of its parts, concatenated
      in the same order. */
  lemma {:induction false} LocalMethodsAppend(g: Graph, a: seq<string>, b: seq<string>)
    requires forall x | x in a + b :: x in g.classes
    ensures LocalMethodsOf(g, a + b) == LocalMethodsOf(g, a) + LocalMethodsOf(g, b)
    decreases |a|
  {
    if |a| == 0 {
      assert a + b == b;
    } else {
      assert (a + b)[0] == a[0] && (a + b)[1..] == a[1..] + b;
      LocalMethodsAppend(g, a[1..], b);
    }
  }

  /** The block the class at position `i` contributes: its own methods in
      declaration order, after those of the classes before it and before
      those of the classes after it. */
  lemma LocalMethodsBlock(g: Graph, hs: seq<string>, i: nat)
    requires forall x | x in hs :: x in g.classes
    requires i < |hs|
    ensures LocalMethodsOf(g, hs) == LocalMethodsOf(g, hs[..i]) + OwnMethods(g, hs[i]) + LocalMethodsOf(g, hs[i + 1..])
  {
    assert hs == hs[..i] + ([hs[i]] + hs[i + 1..]);
    LocalMethodsAppend(g, hs[..i], [hs[i]] + hs[i + 1..]);
    LocalMethodsAppend(g, [hs[i]], hs[i + 1..]);
    assert [hs[i]][1..] == [];
  }

  lemma {:induction false} PathsInCount(c: string, keys: seq<MethodKey>, m: MethodPath)
    ensures multiset(PathsIn(c, keys))[m] == (if m.owner == c then multiset(keys)[KeyOf(m)] else 0)
    decreases |keys|
  {
    if |keys| > 0 {
      PathsInCount(c, keys[1..], m);
      assert keys == [keys[0]] + keys[1..];
      assert PathOf(c, keys[0]) == m <==> m.owner == c && keys[0] == KeyOf(m);
    }
  }

  /** A class listed `n` times contributes each of its methods `n` times:
      the list keeps the duplicates a diamond in the hierarchy produces. */
  lemma {:induction false} LocalMethodsCount(g: Graph, hs: seq<string>, m: MethodPath)
    requires forall x | x in hs :: x in g.classes
    ensures multiset(LocalMethodsOf(g, hs))[m] == multiset(hs)[m.owner] * DeclaredCount(g, m)
    decreases |hs|
  {
    if |hs| > 0 {
      var c := hs[0];
      var k := DeclaredCount(g, m);
      var own := OwnMethods(g, c);
      var later := LocalMethodsOf(g, hs[1..]);
      assert LocalMethodsOf(g, hs) == own + later;
      LocalMethodsCount(g, hs[1..], m);
      var here := if c == m.owner then 1 else 0;
      var rest := multiset(hs[1..])[m.owner];
      assert multiset(own)[m] == here * k by {
        PathsInCount(c, g.classes[c].methods, m);
      }
      assert multiset(hs)[m.owner] == here + rest by {
        assert hs == [c] + hs[1..];
      }
      assert multiset(own + later)[m] == multiset(own)[m] + multiset(later)[m];
      Distribute(here, rest, k);
    }
  }

  lemma Distribute(a: int, b: int, k: int)
    ensures a * k + b * k == (a + b) * k
  {
  }

  /** `getMethodsIncludingInherited`: the local methods of every class of the
      hierarchy, overridden ones included. */
  function MethodsIncludingInherited(g: Graph, c: string): (r: Result<seq<MethodPath>, GraphError>)
    requires Valid(g) && c in g.classes
    ensures r.Success? <==> Hierarchy(g, c).Success?
    ensures r.Success? ==> forall m :: m in r.value <==>
      m.owner in Hierarchy(g, c).value && KeyOf(m) in g.classes[m.owner].methods
  {
    var hs :- Hierarchy(g, c);
    Success(LocalMethodsOf(g, hs))
  }

  /** The inherited methods come class by class in hierarchy order, each
      class's block in declaration order, and a class the walk lists twice
      contributes its methods twice. */
  lemma MethodsIncludingInheritedShape(g: Graph, c: string)
    requires Valid(g) && c in g.classes && Hierarchy(g, c).Success?
    ensures MethodsIncludingInherited(g, c).Success?
    ensures var hs := Hierarchy(g, c).value;
            var r := MethodsIncludingInherited(g, c).value;
            && r[..|OwnMethods(g, c)|] == OwnMethods(g, c)
            && (forall i | 0 <= i < |hs| ::
                  r == LocalMethodsOf(g, hs[..i]) + OwnMethods(g, hs[i]) + LocalMethodsOf(g, hs[i + 1..]))
            && (forall m :: multiset(r)[m] == multiset(hs)[m.owner] * DeclaredCount(g, m))
  {
    var hs := Hierarchy(g, c).value;
    forall i | 0 <= i < |hs|
      ensures LocalMethodsOf(g, hs) == LocalMethodsOf(g, hs[..i]) + OwnMethods(g, hs[i]) + LocalMethodsOf(g, hs[i + 1..])
    {
      LocalMethodsBlock(g, hs, i);
    }
    forall m ensures multiset(LocalMethodsOf(g, hs))[m] == multiset(hs)[m.owner] * DeclaredCount(g, m) {
      LocalMethodsCount(g, hs, m);
    }
  }

  // ---------------------------------------------------------------------------
  // Growing the graph

  /** `h` has every class of `g`, unchanged: what adding classes, and
      recording calls, leave true. */
  ghost predicate Keeps(g: Graph, h: Graph) {
    g.classes.Keys <= h.classes.Keys && forall c | c in g.classes :: h.classes[c] == g.classes[c]
  }

  /** Adding classes does not change the hierarchy of a class already there. */
  lemma {:induction false} HierarchyKept(g: Graph, h: Graph, c: string)
    requires Valid(g) && Valid(h) && Keeps(g, h) && c in g.classes
    ensures Hierarchy(h, c) == Hierarchy(g, c)
    decreases RankOf(g)[c], 1
  {
    var node := g.classes[c];
    assert h.classes[c] == node;
    HierarchyOfAllKept(g, h, node.interfaces, RankOf(g)[c], RankOf(h)[c]);
    if node.superclass.Some? {
      HierarchyKept(g, h, node.superclass.value);
    }
  }

  lemma {:induction false} HierarchyOfAllKept(g: Graph, h: Graph, links: seq<Option<string>>, bg: nat, bh: nat)
    requires Valid(g) && Valid(h) && Keeps(g, h)
    requires forall i | 0 <= i < |links| ::
               links[i].Some? ==> links[i].value in g.classes && RankOf(g)[links[i].value] < bg
    requires forall i | 0 <= i < |links| ::
               links[i].Some? ==> links[i].value in h.classes && RankOf(h)[links[i].value] < bh
    ensures HierarchyOfAll(h, links, bh) == HierarchyOfAll(g, links, bg)
    decreases bg, 0, |links|
  {
    if |links| > 0 && links[0].Some? {
      HierarchyKept(g, h, links[0].value);
      HierarchyOfAllKept(g, h, links[1..], bg, bh);
    }
  }

  lemma {:induction false} FirstDeclaringKept(g: Graph, h: Graph, hs: seq<string>, key: MethodKey)
    requires Keeps(g, h) && forall x | x in hs :: x in g.classes
    ensures FirstDeclaring(h, hs, key) == FirstDeclaring(g, hs, key)
    decreases |hs|
  {
    if |hs| > 0 {
      var c := hs[0];
      assert c in g.classes;
      assert h.classes[c].methods == g.classes[c].methods;
      assert forall x | x in hs[1..] :: x in hs;
      FirstDeclaringKept(g, h, hs[1..], key);
    }
  }

  /** Adding classes does not change what lookup finds on a class already
      there. */
  lemma GetMethodKept(g: Graph, h: Graph, c: string, key: MethodKey)
    requires Valid(g) && Valid(h) && Keeps(g, h) && c in g.classes
    ensures GetMethod(h, c, key) == GetMethod(g, c, key)
  {
    HierarchyKept(g, h, c);
    if Hierarchy(g, c).Success? {
      FirstDeclaringKept(g, h, Hierarchy(g, c).value, key);
    }
  }

  lemma {:induction false} LocalMethodsKept(g: Graph, h: Graph, hs: seq<string>)
    requires Keeps(g, h) && forall x | x in hs :: x in g.classes
    ensures LocalMethodsOf(h, hs) == LocalMethodsOf(g, hs)
    decreases |hs|
  {
    if |hs| > 0 {
      assert h.classes[hs[0]] == g.classes[hs[0]];
      LocalMethodsKept(g, h, hs[1..]);
    }
  }

  /** Adding classes does not change the inherited methods of a class
      already there. */
  lemma MethodsIncludingInheritedKept(g: Graph, h: Graph, c: string)
    requires Valid(g) && Valid(h) && Keeps(g, h) && c in g.classes
    ensures MethodsIncludingInherited(h, c) == MethodsIncludingInherited(g, c)
  {
    HierarchyKept(g, h, c);
    if Hierarchy(g, c).Success? {
      LocalMethodsKept(g, h, Hierarchy(g, c).value);
    }
  }

  /** Every method node of the graph. */
  function MethodsOf(g: Graph): (r: set<MethodPath>)
    ensures forall m :: m in r <==> m.owner in g.classes && KeyOf(m) in g.classes[m.owner].methods
  {
    set c, k | c in g.classes && k in g.classes[c].methods :: PathOf(c, k)
  }
}
