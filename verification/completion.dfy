/** The analysis of all roots, completed.

    The walk of `analyzeMethod` treats a method that is still being analysed
    as having no chain, and never looks at it again. On a cycle this loses
    chains: with calls a -> b, b -> a and a -> u, u unsafe, analysing a leaves
    b analysed without a chain although b -> a -> u is one. A root method
    analysed second is then reported as safe.

    The corrected analysis runs the walk for every root, as `Main` does, and
    then passes chains back along call sites until nothing changes: a caller
    that was analysed, is not assumed safe and has no chain gets itself in
    front of its callee's chain. Chains the walk recorded are kept as they
    are. Afterwards an analysed method has a chain exactly when a witness
    chain starts at it. */
module Completion {
  import opened Wrappers
  import opened MethodPaths
  import opened CallGraphs
  import opened Roots
  import opened CallPaths
  import opened Analyzer
  import opened SetFacts

  /** A call site along which a chain can still be passed back. */
  predicate Open(f: Facts, a: Analysis, s: CallSite) {
    s.from in a.analyzed && s.from !in a.unsafe && !AssumedSafe(f, s.from) && s.to in a.unsafe
  }

  /** The chains of `a` are all still in `b`, unchanged. */
  ghost predicate Kept(a: Analysis, b: Analysis) {
    forall k | k in a.unsafe :: k in b.unsafe && b.unsafe[k] == a.unsafe[k]
  }

  /** Passing a chain back along an open site. */
  function PassBack(f: Facts, a: Analysis, s: CallSite): (r: Analysis)
    requires Sound(f, a) && s in f.graph.calls && Open(f, a, s)
    ensures Sound(f, r) && r.analyzed == a.analyzed && Kept(a, r)
    ensures r.unsafe.Keys == a.unsafe.Keys + {s.from}
    ensures Methods(r.unsafe[s.from]) == [s.from] + Methods(a.unsafe[s.to])
  {
    assert s == CallSite(s.from, a.unsafe[s.to].node);
    WitnessExtend(f, s.from, a.unsafe[s.to]);
    a.(unsafe := a.unsafe[s.from := Prepend(s.from, a.unsafe[s.to])])
  }

  /** One pass over the call log from the `i`-th site on. When it changes
      nothing, none of those sites was open. */
  function Pass(f: Facts, a: Analysis, i: nat): (r: Analysis)
    requires Sound(f, a) && i <= |f.graph.calls|
    ensures Sound(f, r) && r.analyzed == a.analyzed && Kept(a, r)
    ensures r == a ==> forall j | i <= j < |f.graph.calls| :: !Open(f, a, f.graph.calls[j])
    decreases |f.graph.calls| - i
  {
    if i == |f.graph.calls| then a
    else
      var s := f.graph.calls[i];
      if Open(f, a, s) then
        var b := PassBack(f, a, s);
        var r := Pass(f, b, i + 1);
        assert s.from in r.unsafe && s.from !in a.unsafe;
        r
      else
        Pass(f, a, i + 1)
  }

  lemma KeptSame(a: Analysis, b: Analysis)
    requires Kept(a, b) && a.analyzed == b.analyzed && b.unsafe.Keys <= a.unsafe.Keys
    ensures a == b
  {
    assert a.unsafe == b.unsafe;
  }

  /** Passes until one changes nothing. */
  function Propagate(f: Facts, a: Analysis): (r: Analysis)
    requires Sound(f, a)
    ensures Sound(f, r) && r.analyzed == a.analyzed && Kept(a, r)
    ensures forall s | s in f.graph.calls :: !Open(f, r, s)
    decreases |a.analyzed - a.unsafe.Keys|
  {
    var b := Pass(f, a, 0);
    if b == a then
      assert forall s | s in f.graph.calls :: !Open(f, a, s) by {
        forall s | s in f.graph.calls ensures !Open(f, a, s) {
          var j :| 0 <= j < |f.graph.calls| && f.graph.calls[j] == s;
        }
      }
      a
    else
      ChangeShrinks(f, a, b);
      Propagate(f, b)
  }

  /** A pass that changed something recorded a new chain for an analysed
      method, so fewer analysed methods are left without one. */
  lemma ChangeShrinks(f: Facts, a: Analysis, b: Analysis)
    requires Sound(f, b) && Kept(a, b) && a.analyzed == b.analyzed && a != b
    ensures |b.analyzed - b.unsafe.Keys| < |a.analyzed - a.unsafe.Keys|
  {
    if b.unsafe.Keys <= a.unsafe.Keys {
      KeptSame(a, b);
    }
    assert !(b.unsafe.Keys <= a.unsafe.Keys);
    var k :| k in b.unsafe && k !in a.unsafe;
    DiffShrinks(a.analyzed, a.unsafe.Keys, b.unsafe.Keys, k);
  }

  // ---------------------------------------------------------------------------
  // Completeness

  /** Every analysed method is done. */
  ghost predicate Closed(f: Facts, a: Analysis) {
    forall k | k in a.analyzed :: Done(f, a, k)
  }

  /** Some witness chain starts at `m`. */
  ghost predicate UnsafeReachable(f: Facts, m: MethodPath) {
    exists ms :: IsWitness(f, ms) && ms[0] == m
  }

  lemma WitnessTail(f: Facts, ms: seq<MethodPath>)
    requires IsWitness(f, ms) && |ms| > 1
    ensures IsWitness(f, ms[1..])
  {
    var t := ms[1..];
    forall i | 0 <= i < |t| - 1 ensures CallSite(t[i], t[i + 1]) in f.graph.calls {
      assert t[i] == ms[i + 1] && t[i + 1] == ms[i + 2];
    }
    forall i | 0 <= i < |t| ensures !AssumedSafe(f, t[i]) {
      assert t[i] == ms[i + 1];
    }
  }

  /** In a closed analysis with no open site, an analysed method from which a
      witness starts has a chain. */
  lemma {:induction false} WitnessFound(f: Facts, a: Analysis, ms: seq<MethodPath>)
    requires Closed(f, a) && forall s | s in f.graph.calls :: !Open(f, a, s)
    requires IsWitness(f, ms) && ms[0] in a.analyzed
    ensures ms[0] in a.unsafe
    decreases |ms|
  {
    var k := ms[0];
    assert Done(f, a, k) && !AssumedSafe(f, k);
    if LocallySafe(f, k) {
      var s := CallSite(k, ms[1]);
      assert s in f.graph.calls;
      WitnessTail(f, ms);
      WitnessFound(f, a, ms[1..]);
      assert !Open(f, a, s);
    }
  }

  /** After propagation over a closed analysis, an analysed method has a chain
      exactly when a witness chain starts at it. */
  lemma ChainIffReachable(f: Facts, a: Analysis, m: MethodPath)
    requires Sound(f, a) && Closed(f, a) && forall s | s in f.graph.calls :: !Open(f, a, s)
    requires m in a.analyzed
    ensures m in a.unsafe <==> UnsafeReachable(f, m)
  {
    if m in a.unsafe {
      assert IsWitness(f, Methods(a.unsafe[m]));
    }
    if UnsafeReachable(f, m) {
      var ms :| IsWitness(f, ms) && ms[0] == m;
      WitnessFound(f, a, ms);
    }
  }

  lemma PropagateKeepsClosed(f: Facts, a: Analysis)
    requires Sound(f, a) && Closed(f, a)
    ensures Closed(f, Propagate(f, a))
  {
    var r := Propagate(f, a);
    forall k | k in r.analyzed ensures Done(f, r, k) {
      DoneGrows(f, a, r, k);
    }
  }

  // ---------------------------------------------------------------------------
  // All roots

  /** `m` is a method the root selects. */
  ghost predicate RootMethod(f: Facts, root: Root, m: MethodPath)
    requires Valid(f.graph)
  {
    && root.className in f.graph.classes
    && Hierarchy(f.graph, root.className).Success?
    && m in MethodsIncludingInherited(f.graph, root.className).value
    && MatchesMethod(root, m.name, m.desc)
  }

  /** The class of a root exists and its hierarchy can be listed. */
  predicate RootResolves(f: Facts, root: Root)
    requires Valid(f.graph)
  {
    root.className in f.graph.classes && Hierarchy(f.graph, root.className).Success?
  }

  /** One root on a closed analysis: it fails exactly when the root does
      not resolve, and otherwise adds every method the root selects and
      keeps the analysis closed. */
  method AnalyzeRootClosed(f: Facts, a: Analysis, root: Root) returns (r: Result<Analysis, GraphError>)
    requires Valid(f.graph) && Sound(f, a) && Closed(f, a)
    ensures r.Success? <==> RootResolves(f, root)
    ensures r.Success? ==> Sound(f, r.value) && Closed(f, r.value) && a.analyzed <= r.value.analyzed
    ensures r.Success? ==> forall m | RootMethod(f, root, m) :: m in r.value.analyzed
  {
    r := AnalyzeRoot(f, a, root);
    if r.Success? {
      forall k | k in r.value.analyzed ensures Done(f, r.value, k) {
        if k in a.analyzed {
          DoneGrows(f, a, r.value, k);
        }
      }
    }
  }

  /** The corrected analysis: every root in order from nothing analysed, as
      `Main` runs the analyser, then propagation. It fails with the first
      root that fails. Every method a root selects is analysed, and it has a
      chain exactly when a witness chain starts at it. */
  method AnalyzeRoots(f: Facts, roots: seq<Root>) returns (r: Result<Analysis, GraphError>)
    requires Valid(f.graph)
    ensures r.Success? <==> forall i | 0 <= i < |roots| :: RootResolves(f, roots[i])
    ensures r.Success? ==> Sound(f, r.value)
    ensures r.Success? ==> forall i, m | 0 <= i < |roots| && RootMethod(f, roots[i], m) ::
                             m in r.value.analyzed && (m in r.value.unsafe <==> UnsafeReachable(f, m))
  {
    var cur := Fresh;
    var i := 0;
    while i < |roots|
      invariant 0 <= i <= |roots|
      invariant forall j | 0 <= j < i :: RootResolves(f, roots[j])
      invariant Sound(f, cur) && Closed(f, cur)
      invariant forall j, m | 0 <= j < i && RootMethod(f, roots[j], m) :: m in cur.analyzed
    {
      var next := AnalyzeRootClosed(f, cur, roots[i]);
      if next.Failure? {
        return Failure(next.error);
      }
      cur := next.value;
      i := i + 1;
    }
    var done := Propagate(f, cur);
    PropagateKeepsClosed(f, cur);
    forall j, m | 0 <= j < |roots| && RootMethod(f, roots[j], m)
      ensures m in done.analyzed && (m in done.unsafe <==> UnsafeReachable(f, m))
    {
      ChainIffReachable(f, done, m);
    }
    r := Success(done);
  }
}
