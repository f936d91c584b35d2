/** The worklist builder: starting from roots, it discovers classes through an
    abstract class-file decoder and records the calls between the methods it
    reaches.

    There are two FIFO queues, one of class names and one of method paths, a
    map from each discovered but unprocessed method to the calls its body
    makes, and a set of processed methods. Class loading is the `decoder` map:
    a name it lacks is a class that cannot be found. The builder's graph is
    the one of `CallGraphs`. */
module Builder {
  import opened Wrappers
  import opened JavaStrings
  import opened MethodPaths
  import opened NodeSets
  import opened CallGraphs
  import opened Bytecode
  import opened Roots

  datatype Env = Env(decoder: map<string, ClassDescriptor>, ignore: NodeSet)

  /** How building can fail. `ClassNotFound` is a `ClassNotFoundException`;
      `WrappedClassNotFound` is the same inside the unchecked wrapper the
      discovery visitor throws for a missing superclass or interface;
      `RootClassNotFound` is the `IllegalArgumentException` of `addRoot`; the
      graph's own exceptions pass through; `MissingCallList` is the
      `NullPointerException` of processing a method with no recorded calls. */
  datatype BuildError =
    | ClassNotFound(name: string)
    | WrappedClassNotFound(name: string)
    | RootClassNotFound(name: string)
    | GraphFailure(error: GraphError)
    | MissingCallList(path: MethodPath)

  datatype BuildState = BuildState(
    graph: Graph,
    classQueue: seq<string>,
    methodQueue: seq<MethodPath>,
    pending: map<MethodPath, seq<MethodPath>>,
    done: set<MethodPath>,
    localFpMath: set<MethodPath>,
    strictfp: set<MethodPath>,
    native: set<MethodPath>)

  const Initial: BuildState := BuildState(EmptyGraph, [], [], map[], {}, {}, {}, {})

  function Lift<T>(r: Result<T, GraphError>): (s: Result<T, BuildError>)
    ensures s.Success? <==> r.Success?
    ensures s.Success? ==> s.value == r.value
    ensures s.Failure? ==> s.error == GraphFailure(r.error)
  {
    match r
    case Success(v) => Success(v)
    case Failure(e) => Failure(GraphFailure(e))
  }

  // ---------------------------------------------------------------------------
  // Ignoring

  /** `shouldIgnoreClass`: array classes and members of the ignore set. */
  predicate ShouldIgnoreClass(env: Env, name: string) {
    StartsWith(name, "[") || ContainsClass(env.ignore, name)
  }

  /** `shouldIgnoreMethod`: the owner is ignored or the set holds the method. */
  predicate ShouldIgnoreMethod(env: Env, p: MethodPath) {
    ShouldIgnoreClass(env, p.owner) || ContainsMethod(env.ignore, p)
  }

  /** `classNotYetDiscovered`. */
  predicate ClassNotYetDiscovered(env: Env, g: Graph, name: string) {
    !HasClass(g, name) && !ShouldIgnoreClass(env, name)
  }

  /** A basic array class is always ignored, so the array test of
      `discoverClass` never decides anything on its own. */
  lemma BasicArrayClassesAreIgnored(env: Env, name: string)
    ensures IsBasicArrayClass(name) ==> ShouldIgnoreClass(env, name)
  {
    if IsBasicArrayClass(name) {
      assert name[..1] == ['['];
    }
  }

  // ---------------------------------------------------------------------------
  // Well-formedness

  /** A class discovery recurses into: decoded and not ignored. */
  predicate Visitable(env: Env, name: string) {
    name in env.decoder && !ShouldIgnoreClass(env, name)
  }

  /** `r` strictly decreases from each visitable class to the superclass
      and interfaces it names, where those are visitable. Links into an
      ignored class are never followed and so may close a cycle. */
  ghost predicate DecoderRanked(env: Env, r: map<string, nat>) {
    forall n | Visitable(env, n) ::
      n in r
      && (env.decoder[n].superName.Some? && Visitable(env, env.decoder[n].superName.value) ==>
            env.decoder[n].superName.value in r && r[env.decoder[n].superName.value] < r[n])
      && (forall d | d in env.decoder[n].interfaces && Visitable(env, d) :: d in r && r[d] < r[n])
  }

  /** No visitable class is its own ancestor through visitable classes.
      Discovery recurses through superclasses and interfaces before it
      records the class, so on such a cycle it would never stop. */
  ghost predicate DecoderAcyclic(env: Env) {
    exists r :: DecoderRanked(env, r)
  }

  ghost function DecoderRank(env: Env): (r: map<string, nat>)
    requires DecoderAcyclic(env)
    ensures DecoderRanked(env, r)
  {
    var r :| DecoderRanked(env, r); r
  }

  /** Names discovery never recurses from come first, then the visitable
      ones by rank. */
  ghost function Measure(env: Env, name: string): nat
    requires DecoderAcyclic(env)
  {
    if Visitable(env, name) then DecoderRank(env)[name] + 1 else 0
  }

  /** What the builder keeps true of its graph: only decodable, non-ignored
      classes, each linked only to the superclass and interfaces its class
      file names. */
  ghost predicate GraphInv(env: Env, g: Graph) {
    LinksPresent(g)
    && (forall c | c in g.classes :: c in env.decoder && !ShouldIgnoreClass(env, c))
    && (forall c | c in g.classes ::
          g.classes[c].superclass.Some? ==> env.decoder[c].superName == g.classes[c].superclass)
    && (forall c | c in g.classes ::
          forall i | 0 <= i < |g.classes[c].interfaces| ::
            g.classes[c].interfaces[i].Some? ==> g.classes[c].interfaces[i].value in env.decoder[c].interfaces)
  }

  /** A graph that follows an acyclic decoder is acyclic. */
  lemma GraphInvValid(env: Env, g: Graph)
    requires DecoderAcyclic(env) && GraphInv(env, g)
    ensures Valid(g)
  {
    var r := DecoderRank(env);
    assert Ranked(g, r);
  }

  /** `calls` is what the body of `m` invokes: the class file of `m`'s
      owner has a method of that name and descriptor whose invocations are
      `calls`, in order. */
  ghost predicate BodyCalls(env: Env, m: MethodPath, calls: seq<MethodPath>) {
    m.owner in env.decoder
    && exists d | d in env.decoder[m.owner].methods :: PathIn(m.owner, d) == m && CallsIn(d.code) == calls
  }

  /** Every recorded call list is the one of the method's body. */
  ghost predicate PendingInv(env: Env, st: BuildState) {
    forall m | m in st.pending :: BodyCalls(env, m, st.pending[m])
  }

  /** From `st` to `st2`, discovery only added classes (of measure below
      `bound`), changed no existing class outside `except`, recorded only
      call lists of method bodies, and left the call log, the queues and the
      processed set alone. */
  ghost predicate Extends(env: Env, st: BuildState, st2: BuildState, bound: nat, except: set<string>)
    requires DecoderAcyclic(env)
  {
    GraphInv(env, st2.graph)
    && (PendingInv(env, st) ==> PendingInv(env, st2))
    && st.graph.classes.Keys <= st2.graph.classes.Keys
    && (forall c | c in st.graph.classes && c !in except :: st2.graph.classes[c] == st.graph.classes[c])
    && (forall c | c in st2.graph.classes && c !in st.graph.classes :: Measure(env, c) < bound)
    && st2.graph.calls == st.graph.calls
    && st2.classQueue == st.classQueue
    && st2.methodQueue == st.methodQueue
    && st2.done == st.done
  }

  lemma ExtendsTrans(env: Env, a: BuildState, b: BuildState, c: BuildState, bound: nat, e1: set<string>, e2: set<string>)
    requires DecoderAcyclic(env)
    requires Extends(env, a, b, bound, e1) && Extends(env, b, c, bound, e2)
    ensures Extends(env, a, c, bound, e1 + e2)
  {
  }

  lemma ExtendsWeaken(env: Env, a: BuildState, b: BuildState, bound: nat, bound2: nat, e1: set<string>, e2: set<string>)
    requires DecoderAcyclic(env)
    requires Extends(env, a, b, bound, e1) && bound <= bound2 && e1 <= e2
    ensures Extends(env, a, b, bound2, e2)
  {
  }

  lemma ExtendsDropExcept(env: Env, a: BuildState, b: BuildState, bound: nat, e: set<string>)
    requires DecoderAcyclic(env)
    requires Extends(env, a, b, bound, e) && forall x | x in e :: x !in a.graph.classes
    ensures Extends(env, a, b, bound, {})
  {
  }

  /** Adding a decodable, non-ignored class with the superclass its class
      file names keeps the graph well formed. */
  lemma AddClassExtends(env: Env, st: BuildState, name: string, superNode: Option<string>, bound: nat)
    requires DecoderAcyclic(env) && GraphInv(env, st.graph)
    requires name in env.decoder && !ShouldIgnoreClass(env, name) && !HasClass(st.graph, name)
    requires Measure(env, name) < bound
    requires superNode.Some? ==> superNode.value in st.graph.classes && superNode == env.decoder[name].superName
    ensures CallGraphs.AddClass(st.graph, name, superNode).Success?
    ensures Extends(env, st, st.(graph := CallGraphs.AddClass(st.graph, name, superNode).value), bound, {})
  {
    var g := CallGraphs.AddClass(st.graph, name, superNode).value;
    AddClassKeepsGraphInv(env, st.graph, name, superNode);
    forall c | c in st.graph.classes ensures g.classes[c] == st.graph.classes[c] {
      assert c != name;
    }
    assert g.classes.Keys == st.graph.classes.Keys + {name};
  }

  lemma AddClassKeepsGraphInv(env: Env, g0: Graph, name: string, superNode: Option<string>)
    requires GraphInv(env, g0)
    requires name in env.decoder && !ShouldIgnoreClass(env, name) && !HasClass(g0, name)
    requires superNode.Some? ==> superNode.value in g0.classes && superNode == env.decoder[name].superName
    ensures CallGraphs.AddClass(g0, name, superNode).Success?
    ensures GraphInv(env, CallGraphs.AddClass(g0, name, superNode).value)
  {
    var g := CallGraphs.AddClass(g0, name, superNode).value;
    assert g.classes[name].interfaces == [];
    assert LinksPresent(g) by {
      forall c | c in g.classes
        ensures forall i | 0 <= i < |g.classes[c].interfaces| ::
                  g.classes[c].interfaces[i].Some? ==> g.classes[c].interfaces[i].value in g.classes
      {
        if c != name { assert g.classes[c] == g0.classes[c]; }
      }
    }
  }

  /** From `st` to `st2` only the method list of `cls` changed. */
  predicate MethodsOnly(st: BuildState, st2: BuildState, cls: string) {
    && st2.graph.classes.Keys == st.graph.classes.Keys
    && cls in st.graph.classes
    && (forall c | c in st.graph.classes && c != cls :: st2.graph.classes[c] == st.graph.classes[c])
    && st2.graph.classes[cls].name == st.graph.classes[cls].name
    && st2.graph.classes[cls].superclass == st.graph.classes[cls].superclass
    && st2.graph.classes[cls].interfaces == st.graph.classes[cls].interfaces
    && st2.graph.calls == st.graph.calls
    && st2.classQueue == st.classQueue && st2.methodQueue == st.methodQueue && st2.done == st.done
  }

  /** Changing only a method list keeps the graph well formed. */
  lemma MethodsOnlyExtends(env: Env, st: BuildState, st2: BuildState, cls: string)
    requires DecoderAcyclic(env) && GraphInv(env, st.graph) && MethodsOnly(st, st2, cls)
    requires PendingInv(env, st) ==> PendingInv(env, st2)
    ensures Extends(env, st, st2, 0, {cls})
  {
    var g := st2.graph;
    forall c | c in g.classes
      ensures g.classes[c].name == st.graph.classes[c].name
      ensures g.classes[c].superclass == st.graph.classes[c].superclass
      ensures g.classes[c].interfaces == st.graph.classes[c].interfaces
    {
      if c != cls { assert g.classes[c] == st.graph.classes[c]; }
    }
    SameLinksKeepGraphInv(env, st.graph, g);
  }

  /** Only the links matter to the invariant. */
  lemma SameLinksKeepGraphInv(env: Env, g0: Graph, g: Graph)
    requires GraphInv(env, g0) && g.classes.Keys == g0.classes.Keys
    requires forall c | c in g.classes ::
               && g.classes[c].name == g0.classes[c].name
               && g.classes[c].superclass == g0.classes[c].superclass
               && g.classes[c].interfaces == g0.classes[c].interfaces
    ensures GraphInv(env, g)
  {
    assert LinksPresent(g);
  }

  /** Linking an interface the class file names, or `null`, keeps the graph
      well formed and changes only that class. */
  lemma LinkKeepsInv(env: Env, st: BuildState, cls: string, link: Option<string>, bound: nat)
    requires DecoderAcyclic(env) && GraphInv(env, st.graph) && cls in st.graph.classes
    requires link.Some? ==> link.value in st.graph.classes && link.value in env.decoder[cls].interfaces
    ensures Extends(env, st, st.(graph := AddInterface(st.graph, cls, link)), bound, {cls})
  {
    LinkKeepsGraphInv(env, st.graph, cls, link);
  }

  lemma LinkKeepsGraphInv(env: Env, g0: Graph, cls: string, link: Option<string>)
    requires GraphInv(env, g0) && cls in g0.classes
    requires link.Some? ==> link.value in g0.classes && link.value in env.decoder[cls].interfaces
    ensures GraphInv(env, AddInterface(g0, cls, link))
  {
    var g := AddInterface(g0, cls, link);
    var ifs := g.classes[cls].interfaces;
    assert forall i | 0 <= i < |ifs| - 1 :: ifs[i] == g0.classes[cls].interfaces[i];
    assert LinksPresent(g) by {
      forall c | c in g.classes
        ensures forall i | 0 <= i < |g.classes[c].interfaces| ::
                  g.classes[c].interfaces[i].Some? ==> g.classes[c].interfaces[i].value in g.classes
      {
        if c != cls { assert g.classes[c] == g0.classes[c]; }
      }
    }
  }

  // ---------------------------------------------------------------------------
  // Discovery

  /** `discoverClass`: an ignored name, array classes included, is never
      looked up and yields no node; a name the decoder lacks is a missing
      class file; any other class is built by `DiscoverDecoded`. */
  function Discover(env: Env, st: BuildState, name: string): (r: Result<(BuildState, Option<string>), BuildError>)
    requires DecoderAcyclic(env) && GraphInv(env, st.graph) && !HasClass(st.graph, name)
    ensures ShouldIgnoreClass(env, name) ==> r == Success((st, None))
    ensures !ShouldIgnoreClass(env, name) && name !in env.decoder ==> r == Failure(ClassNotFound(name))
    ensures r.Success? && r.value.1.None? ==> ShouldIgnoreClass(env, name) && r.value.0 == st
    ensures r.Success? && r.value.1.Some? ==> r.value.1.value == name && HasClass(r.value.0.graph, name)
    ensures r.Success? ==> Extends(env, st, r.value.0, Measure(env, name) + 1, {})
    ensures r.Failure? ==> r.error.ClassNotFound? || r.error.WrappedClassNotFound? || r.error.GraphFailure?
    ensures r.Failure? && (r.error.ClassNotFound? || r.error.WrappedClassNotFound?) ==>
              r.error.name !in env.decoder && !ShouldIgnoreClass(env, r.error.name)
    decreases Measure(env, name), 3
  {
    if IsBasicArrayClass(name) || ShouldIgnoreClass(env, name) then
      BasicArrayClassesAreIgnored(env, name);
      Success((st, None))
    else if name !in env.decoder then Failure(ClassNotFound(name))
    else
      var r :- DiscoverDecoded(env, st, name);
      Success((r, Some(name)))
  }

  /** The body of `visit` for a class file that decodes: its superclass
      discovered, the class added with it, then each interface discovered
      and linked, then each method visited. */
  function DiscoverDecoded(env: Env, st: BuildState, name: string): (r: Result<BuildState, BuildError>)
    requires DecoderAcyclic(env) && GraphInv(env, st.graph) && !HasClass(st.graph, name)
    requires name in env.decoder && !ShouldIgnoreClass(env, name)
    ensures r.Success? ==> HasClass(r.value.graph, name) && Extends(env, st, r.value, Measure(env, name) + 1, {})
    ensures r.Failure? ==> r.error.WrappedClassNotFound? || r.error.GraphFailure?
    ensures r.Failure? && r.error.WrappedClassNotFound? ==>
              r.error.name !in env.decoder && !ShouldIgnoreClass(env, r.error.name)
    decreases Measure(env, name), 2
  {
    var d := env.decoder[name];
    var bound := Measure(env, name);
    var p1 :- Dependency(env, st, d.superName, bound);
    ExtendsWeaken(env, st, p1.0, bound, bound + 1, {}, {});
    var r :- Populate(env, p1.0, name, p1.1);
    ExtendsTrans(env, st, p1.0, r, bound + 1, {}, {});
    Success(r)
  }

  /** Adds the class below its (already discovered) superclass, then links
      its interfaces and visits its methods. */
  function Populate(env: Env, st: BuildState, name: string, superNode: Option<string>): (r: Result<BuildState, BuildError>)
    requires DecoderAcyclic(env) && GraphInv(env, st.graph) && !HasClass(st.graph, name)
    requires name in env.decoder && !ShouldIgnoreClass(env, name)
    requires superNode.Some? ==> superNode.value in st.graph.classes && superNode == env.decoder[name].superName
    ensures r.Success? ==> HasClass(r.value.graph, name) && Extends(env, st, r.value, Measure(env, name) + 1, {})
    ensures r.Failure? ==> r.error.WrappedClassNotFound? || r.error.GraphFailure?
    ensures r.Failure? && r.error.WrappedClassNotFound? ==>
              r.error.name !in env.decoder && !ShouldIgnoreClass(env, r.error.name)
    decreases Measure(env, name), 1, |env.decoder[name].interfaces| + 2
  {
    var d := env.decoder[name];
    var bound := Measure(env, name);
    AddClassExtends(env, st, name, superNode, bound + 1);
    var st2 := st.(graph := CallGraphs.AddClass(st.graph, name, superNode).value);
    var st3 :- AddInterfaces(env, st2, name, d.interfaces, bound);
    var st4 :- VisitMethods(env, st3, name, d.methods);
    VisitMethodsKeepsPending(env, st3, name, d.methods);
    MethodsOnlyExtends(env, st3, st4, name);
    PopulateChain(env, st, st2, st3, st4, name, bound);
    Success(st4)
  }

  lemma PopulateChain(env: Env, st: BuildState, st2: BuildState, st3: BuildState, st4: BuildState, name: string, bound: nat)
    requires DecoderAcyclic(env) && name !in st.graph.classes
    requires Extends(env, st, st2, bound + 1, {})
    requires Extends(env, st2, st3, bound, {name})
    requires Extends(env, st3, st4, 0, {name})
    ensures Extends(env, st, st4, bound + 1, {})
  {
    forall c | c in st.graph.classes ensures st4.graph.classes[c] == st.graph.classes[c] {
      assert c != name;
      var n1 := st2.graph.classes[c];
      assert n1 == st.graph.classes[c];
      assert c in st2.graph.classes && c !in {name};
      var n2 := st3.graph.classes[c];
      assert n2 == n1;
      assert c in st3.graph.classes;
      assert st4.graph.classes[c] == n2;
    }
    forall c | c in st4.graph.classes && c !in st.graph.classes ensures Measure(env, c) < bound + 1 {
      if c !in st2.graph.classes {
        assert c !in st3.graph.classes ==> Measure(env, c) < 0;
        assert Measure(env, c) < bound;
      }
    }
    assert GraphInv(env, st4.graph);
    assert st.graph.classes.Keys <= st4.graph.classes.Keys;
    assert st4.graph.calls == st.graph.calls;
    assert st4.classQueue == st.classQueue && st4.methodQueue == st.methodQueue && st4.done == st.done;
  }

  /** `getDependency`: an absent name is no node; a class already in the
      graph is that node; any other is discovered, with a missing class
      file wrapped. */
  function Dependency(env: Env, st: BuildState, dep: Option<string>, ghost bound: nat)
    : (r: Result<(BuildState, Option<string>), BuildError>)
    requires DecoderAcyclic(env) && GraphInv(env, st.graph)
    requires dep.Some? ==> Measure(env, dep.value) < bound
    ensures r.Success? ==> Extends(env, st, r.value.0, bound, {})
    ensures r.Success? && r.value.1.Some? ==> r.value.1 == dep && HasClass(r.value.0.graph, dep.value)
    ensures r.Failure? ==> r.error.WrappedClassNotFound? || r.error.GraphFailure?
    ensures r.Failure? && r.error.WrappedClassNotFound? ==>
              r.error.name !in env.decoder && !ShouldIgnoreClass(env, r.error.name)
    decreases bound, 1, 0
  {
    if dep.None? then Success((st, None))
    else if HasClass(st.graph, dep.value) then Success((st, dep))
    else
      match Discover(env, st, dep.value)
      case Success(p) => Success(p)
      case Failure(ClassNotFound(x)) => Failure(WrappedClassNotFound(x))
      case Failure(e) => Failure(e)
  }

  /** The interface loop of `visit`: each interface is discovered and linked
      in declaration order. An ignored interface gives no node, and its
      `null` is linked all the same. */
  function AddInterfaces(env: Env, st: BuildState, cls: string, ifaces: seq<string>, ghost bound: nat)
    : (r: Result<BuildState, BuildError>)
    requires DecoderAcyclic(env) && GraphInv(env, st.graph) && cls in st.graph.classes
    requires cls in env.decoder && Measure(env, cls) == bound
    requires forall x | x in ifaces :: x in env.decoder[cls].interfaces
    ensures r.Success? ==> Extends(env, st, r.value, bound, {cls})
    ensures r.Success? ==> r.value.graph.classes[cls].superclass == st.graph.classes[cls].superclass
    ensures r.Success? ==> r.value.graph.classes[cls].methods == st.graph.classes[cls].methods
    ensures r.Success? ==>
      |r.value.graph.classes[cls].interfaces| == |st.graph.classes[cls].interfaces| + |ifaces|
      && r.value.graph.classes[cls].interfaces[..|st.graph.classes[cls].interfaces|] == st.graph.classes[cls].interfaces
    ensures r.Failure? ==> r.error.WrappedClassNotFound? || r.error.GraphFailure?
    ensures r.Failure? && r.error.WrappedClassNotFound? ==>
              r.error.name !in env.decoder && !ShouldIgnoreClass(env, r.error.name)
    decreases bound, 1, |ifaces| + 1
  {
    if |ifaces| == 0 then Success(st)
    else
      var p :- Dependency(env, st, Some(ifaces[0]), bound);
      var st2 := p.0.(graph := AddInterface(p.0.graph, cls, p.1));
      LinkStep(env, st, p.0, cls, p.1, ifaces[0], bound);
      var r :- AddInterfaces(env, st2, cls, ifaces[1..], bound);
      LinkedTrans(env, st, st2, r, cls, bound, 1, |ifaces| - 1);
      Success(r)
  }

  /** From `st` to `r` the graph was extended, `cls` aside, and `n` links
      were appended to the interfaces of `cls`, which is otherwise unchanged. */
  ghost predicate Linked(env: Env, st: BuildState, r: BuildState, cls: string, bound: nat, n: nat)
    requires DecoderAcyclic(env) && cls in st.graph.classes
  {
    && Extends(env, st, r, bound, {cls})
    && cls in r.graph.classes
    && r.graph.classes[cls].superclass == st.graph.classes[cls].superclass
    && r.graph.classes[cls].methods == st.graph.classes[cls].methods
    && |r.graph.classes[cls].interfaces| == |st.graph.classes[cls].interfaces| + n
    && r.graph.classes[cls].interfaces[..|st.graph.classes[cls].interfaces|] == st.graph.classes[cls].interfaces
  }

  /** Discovering an interface and linking it is one step of the loop. */
  lemma LinkStep(env: Env, st: BuildState, st1: BuildState, cls: string, link: Option<string>, iface: string, bound: nat)
    requires DecoderAcyclic(env) && GraphInv(env, st.graph) && cls in st.graph.classes
    requires cls in env.decoder && iface in env.decoder[cls].interfaces
    requires Extends(env, st, st1, bound, {})
    requires link.Some? ==> link == Some(iface) && HasClass(st1.graph, iface)
    ensures cls in st1.graph.classes
    ensures Linked(env, st, st1.(graph := AddInterface(st1.graph, cls, link)), cls, bound, 1)
  {
    assert st1.graph.classes[cls] == st.graph.classes[cls];
    var st2 := st1.(graph := AddInterface(st1.graph, cls, link));
    LinkKeepsInv(env, st1, cls, link, bound);
    ExtendsWeaken(env, st, st1, bound, bound, {}, {cls});
    ExtendsTrans(env, st, st1, st2, bound, {cls}, {cls});
    var a := st.graph.classes[cls].interfaces;
    assert st2.graph.classes[cls].interfaces == a + [link];
    assert (a + [link])[..|a|] == a;
  }

  lemma LinkedTrans(env: Env, st: BuildState, st2: BuildState, r: BuildState, cls: string, bound: nat, n1: nat, n2: nat)
    requires DecoderAcyclic(env) && cls in st.graph.classes
    requires Linked(env, st, st2, cls, bound, n1)
    requires cls in st2.graph.classes && Linked(env, st2, r, cls, bound, n2)
    ensures Linked(env, st, r, cls, bound, n1 + n2)
  {
    ExtendsTrans(env, st, st2, r, bound, {cls}, {cls});
    InterfacesPrefix(st.graph.classes[cls].interfaces, st2.graph.classes[cls].interfaces, r.graph.classes[cls].interfaces);
  }

  lemma InterfacesPrefix(a: seq<Option<string>>, b: seq<Option<string>>, c: seq<Option<string>>)
    requires |a| <= |b| <= |c| && c[..|b|] == b && b[..|a|] == a
    ensures c[..|a|] == a
  {
    assert c[..|a|] == c[..|b|][..|a|];
  }

  function PathIn(cls: string, m: MethodDescriptor): MethodPath {
    MethodPath(cls, m.name, m.desc)
  }

  /** The methods of `ms` that `visitMethod` keeps. */
  ghost function Kept(env: Env, cls: string, ms: seq<MethodDescriptor>): set<MethodPath> {
    set i | 0 <= i < |ms| && !ShouldIgnoreMethod(env, PathIn(cls, ms[i])) :: PathIn(cls, ms[i])
  }

  /** The three facts `visitMethod` records about a kept method. */
  datatype Mark = StrictMark | NativeMark | FpMathMark

  predicate HasMark(m: MethodDescriptor, k: Mark) {
    match k
    case StrictMark => IsStrictfp(m.access)
    case NativeMark => IsNative(m.access)
    case FpMathMark => DoesFpMath(m.code)
  }

  function Marked(st: BuildState, k: Mark): set<MethodPath> {
    match k
    case StrictMark => st.strictfp
    case NativeMark => st.native
    case FpMathMark => st.localFpMath
  }

  /** The kept methods of `ms` that carry mark `k`. */
  ghost function KeptWith(env: Env, cls: string, ms: seq<MethodDescriptor>, k: Mark): set<MethodPath> {
    set i | 0 <= i < |ms| && !ShouldIgnoreMethod(env, PathIn(cls, ms[i])) && HasMark(ms[i], k) :: PathIn(cls, ms[i])
  }

  /** `visitMethod`: an ignored method is skipped; any other one is added to
      the class, recorded as `strictfp`, native and doing local
      floating-point math according to its flags and body, and its calls are
      kept until it is processed. */
  function VisitMethod(env: Env, st: BuildState, cls: string, m: MethodDescriptor): (r: Result<BuildState, BuildError>)
    requires cls in st.graph.classes
    ensures ShouldIgnoreMethod(env, PathIn(cls, m)) ==> r == Success(st)
    ensures r.Success? ==> MethodsOnly(st, r.value, cls)
    ensures r.Success? && !ShouldIgnoreMethod(env, PathIn(cls, m)) ==>
      && r.value.graph.classes[cls].methods == st.graph.classes[cls].methods + [MethodKey(m.name, m.desc)]
      && r.value.pending == st.pending[PathIn(cls, m) := CallsIn(m.code)]
      && (forall k :: Marked(r.value, k) == Marked(st, k) + (if HasMark(m, k) then {PathIn(cls, m)} else {}))
    ensures r.Failure? <==> !ShouldIgnoreMethod(env, PathIn(cls, m)) && MethodKey(m.name, m.desc) in st.graph.classes[cls].methods
    ensures r.Failure? ==> r.error == GraphFailure(MethodAlreadyAdded(cls, MethodKey(m.name, m.desc)))
  {
    var path := PathIn(cls, m);
    if ShouldIgnoreMethod(env, path) then Success(st)
    else
      var g :- Lift(CallGraphs.AddMethod(st.graph, cls, KeyOf(path)));
      Success(st.(
        graph := g,
        pending := st.pending[path := CallsIn(m.code)],
        strictfp := if IsStrictfp(m.access) then st.strictfp + {path} else st.strictfp,
        native := if IsNative(m.access) then st.native + {path} else st.native,
        localFpMath := if DoesFpMath(m.code) then st.localFpMath + {path} else st.localFpMath))
  }

  /** `visitMethod` over the class's methods in order. What it records is
      stated by `VisitMethodsDeclares`, `VisitMethodsRecordsCalls` and
      `VisitMethodsMarks`. */
  function VisitMethods(env: Env, st: BuildState, cls: string, ms: seq<MethodDescriptor>): (r: Result<BuildState, BuildError>)
    requires cls in st.graph.classes
    ensures r.Success? ==> MethodsOnly(st, r.value, cls)
    ensures r.Failure? ==> r.error.GraphFailure? && r.error.error.MethodAlreadyAdded?
    decreases |ms|
  {
    if |ms| == 0 then Success(st)
    else
      var st1 :- VisitMethod(env, st, cls, ms[0]);
      VisitMethods(env, st1, cls, ms[1..])
  }

  /** The keys of the methods of `ms` that `visitMethod` keeps, in order. */
  function KeptKeys(env: Env, cls: string, ms: seq<MethodDescriptor>): (r: seq<MethodKey>)
    ensures forall key :: key in r <==> PathOf(cls, key) in Kept(env, cls, ms)
  {
    if |ms| == 0 then []
    else
      KeptStep(env, cls, ms);
      var rest := KeptKeys(env, cls, ms[1..]);
      if ShouldIgnoreMethod(env, PathIn(cls, ms[0])) then rest else [MethodKey(ms[0].name, ms[0].desc)] + rest
  }

  /** After visiting a class's methods, its method list is the one it had
      followed by the kept methods in declaration order. */
  lemma {:induction false} VisitMethodsDeclares(env: Env, st: BuildState, cls: string, ms: seq<MethodDescriptor>)
    requires cls in st.graph.classes
    requires VisitMethods(env, st, cls, ms).Success?
    ensures VisitMethods(env, st, cls, ms).value.graph.classes[cls].methods
            == st.graph.classes[cls].methods + KeptKeys(env, cls, ms)
    decreases |ms|
  {
    if |ms| > 0 {
      var st1 := VisitMethod(env, st, cls, ms[0]).value;
      VisitMethodsDeclares(env, st1, cls, ms[1..]);
      if !ShouldIgnoreMethod(env, PathIn(cls, ms[0])) {
        var a := st.graph.classes[cls].methods;
        var k := [MethodKey(ms[0].name, ms[0].desc)];
        assert (a + k) + KeptKeys(env, cls, ms[1..]) == a + (k + KeptKeys(env, cls, ms[1..]));
      }
    }
  }

  /** Each kept method has its calls recorded until it is processed. */
  lemma {:induction false} VisitMethodsRecordsCalls(env: Env, st: BuildState, cls: string, ms: seq<MethodDescriptor>)
    requires cls in st.graph.classes
    requires VisitMethods(env, st, cls, ms).Success?
    ensures VisitMethods(env, st, cls, ms).value.pending.Keys == st.pending.Keys + Kept(env, cls, ms)
    decreases |ms|
  {
    if |ms| > 0 {
      var st1 := VisitMethod(env, st, cls, ms[0]).value;
      VisitMethodsRecordsCalls(env, st1, cls, ms[1..]);
      KeptStep(env, cls, ms);
    }
  }

  /** Visiting methods of the class file records their bodies' calls. */
  lemma {:induction false} VisitMethodsKeepsPending(env: Env, st: BuildState, cls: string, ms: seq<MethodDescriptor>)
    requires cls in st.graph.classes && cls in env.decoder
    requires forall d | d in ms :: d in env.decoder[cls].methods
    requires VisitMethods(env, st, cls, ms).Success?
    ensures PendingInv(env, st) ==> PendingInv(env, VisitMethods(env, st, cls, ms).value)
    decreases |ms|
  {
    if |ms| > 0 && PendingInv(env, st) {
      var st1 := VisitMethod(env, st, cls, ms[0]).value;
      if !ShouldIgnoreMethod(env, PathIn(cls, ms[0])) {
        assert ms[0] in env.decoder[cls].methods;
        assert BodyCalls(env, PathIn(cls, ms[0]), CallsIn(ms[0].code));
      }
      assert PendingInv(env, st1);
      assert forall d | d in ms[1..] :: d in ms;
      VisitMethodsKeepsPending(env, st1, cls, ms[1..]);
    }
  }

  /** Each mark set gains exactly the kept methods with that mark. */
  lemma {:induction false} VisitMethodsMarks(env: Env, st: BuildState, cls: string, ms: seq<MethodDescriptor>, k: Mark)
    requires cls in st.graph.classes
    requires VisitMethods(env, st, cls, ms).Success?
    ensures Marked(VisitMethods(env, st, cls, ms).value, k) == Marked(st, k) + KeptWith(env, cls, ms, k)
    decreases |ms|
  {
    if |ms| > 0 {
      var st1 := VisitMethod(env, st, cls, ms[0]).value;
      VisitMethodsMarks(env, st1, cls, ms[1..], k);
      KeptWithStep(env, cls, ms, k);
    }
  }

  lemma KeptStep(env: Env, cls: string, ms: seq<MethodDescriptor>)
    requires |ms| > 0
    ensures Kept(env, cls, ms) ==
      (if ShouldIgnoreMethod(env, PathIn(cls, ms[0])) then {} else {PathIn(cls, ms[0])}) + Kept(env, cls, ms[1..])
  {
    var rest := ms[1..];
    forall p | p in Kept(env, cls, ms)
      ensures p in (if ShouldIgnoreMethod(env, PathIn(cls, ms[0])) then {} else {PathIn(cls, ms[0])}) + Kept(env, cls, rest)
    {
      var i :| 0 <= i < |ms| && !ShouldIgnoreMethod(env, PathIn(cls, ms[i])) && p == PathIn(cls, ms[i]);
      if i > 0 { assert rest[i - 1] == ms[i]; }
    }
    forall p | p in Kept(env, cls, rest) ensures p in Kept(env, cls, ms) {
      var i :| 0 <= i < |rest| && !ShouldIgnoreMethod(env, PathIn(cls, rest[i])) && p == PathIn(cls, rest[i]);
      assert ms[i + 1] == rest[i];
    }
  }

  lemma KeptWithStep(env: Env, cls: string, ms: seq<MethodDescriptor>, k: Mark)
    requires |ms| > 0
    ensures KeptWith(env, cls, ms, k) ==
      (if ShouldIgnoreMethod(env, PathIn(cls, ms[0])) || !HasMark(ms[0], k) then {} else {PathIn(cls, ms[0])})
      + KeptWith(env, cls, ms[1..], k)
  {
    var rest := ms[1..];
    forall p | p in KeptWith(env, cls, ms, k)
      ensures p in (if ShouldIgnoreMethod(env, PathIn(cls, ms[0])) || !HasMark(ms[0], k) then {} else {PathIn(cls, ms[0])})
                   + KeptWith(env, cls, rest, k)
    {
      var i :| 0 <= i < |ms| && !ShouldIgnoreMethod(env, PathIn(cls, ms[i])) && HasMark(ms[i], k) && p == PathIn(cls, ms[i]);
      if i > 0 { assert rest[i - 1] == ms[i]; }
    }
    forall p | p in KeptWith(env, cls, rest, k) ensures p in KeptWith(env, cls, ms, k) {
      var i :| 0 <= i < |rest| && !ShouldIgnoreMethod(env, PathIn(cls, rest[i])) && HasMark(rest[i], k) && p == PathIn(cls, rest[i]);
      assert ms[i + 1] == rest[i];
    }
  }
}
