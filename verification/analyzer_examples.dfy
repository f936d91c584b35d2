/** Small call graphs worked through the analyser: the overwriting of a
    chain by the last chained callee, a method calling back into a chained
    one, the ring of three methods of the analyser's own tests, and the
    cycle on which the walk loses a chain. */
module AnalyzerExamples {
  import opened Wrappers
  import opened MethodPaths
  import opened NodeSets
  import opened CallGraphs
  import opened CallPaths
  import opened Analyzer
  import opened Completion

  function P(name: string): MethodPath {
    MethodPath("A", name, "()V")
  }

  const NoOverrides: Settings := Settings(Empty, Empty, Empty)

  function FactsOf(calls: seq<CallSite>, fp: set<MethodPath>): Facts {
    Facts(Graph(map[], calls), fp, {}, NoOverrides)
  }

  // ---------------------------------------------------------------------------
  // One step of the walk at a time

  lemma Enters(f: Facts, a: Analysis, m: MethodPath)
    requires Sound(f, a) && m !in a.analyzed && !AssumedSafe(f, m) && LocallySafe(f, m)
    ensures AnalyzeMethod(f, a, m) == AnalyzeCallees(f, a.(analyzed := a.analyzed + {m}), m, Outgoing(f.graph, m), 0)
  {
  }

  lemma Unchained(f: Facts, a: Analysis, m: MethodPath, sites: seq<CallSite>, i: nat, a2: Analysis)
    requires Sound(f, a) && m in a.analyzed && !AssumedSafe(f, m) && i < |sites|
    requires forall j | 0 <= j < |sites| :: sites[j].from == m && sites[j] in f.graph.calls
    requires a2 == AnalyzeMethod(f, a, sites[i].to) && sites[i].to !in a2.unsafe
    ensures AnalyzeCallees(f, a, m, sites, i) == AnalyzeCallees(f, a2, m, sites, i + 1)
  {
  }

  lemma Chained(f: Facts, a: Analysis, m: MethodPath, sites: seq<CallSite>, i: nat, a2: Analysis)
    requires Sound(f, a) && m in a.analyzed && !AssumedSafe(f, m) && i < |sites|
    requires forall j | 0 <= j < |sites| :: sites[j].from == m && sites[j] in f.graph.calls
    requires a2 == AnalyzeMethod(f, a, sites[i].to) && sites[i].to in a2.unsafe
    ensures AnalyzeCallees(f, a, m, sites, i) == AnalyzeCallees(f, Record(f, a2, m, sites[i]), m, sites, i + 1)
  {
  }

  // ---------------------------------------------------------------------------
  // m -> u, m -> c, c -> m, with u unsafe

  function Overwrite(m: MethodPath, u: MethodPath, c: MethodPath): Facts {
    FactsOf([CallSite(m, u), CallSite(m, c), CallSite(c, m)], {u})
  }

  lemma OverwriteOutgoing(m: MethodPath, u: MethodPath, c: MethodPath)
    requires m != u && m != c && c != u
    ensures Outgoing(Overwrite(m, u, c).graph, m) == [CallSite(m, u), CallSite(m, c)]
    ensures Outgoing(Overwrite(m, u, c).graph, c) == [CallSite(c, m)]
  {
    var mu, mc, cm := CallSite(m, u), CallSite(m, c), CallSite(c, m);
    var log := [mu, mc, cm];
    assert log[..2] == [mu, mc] && [mu, mc][..1] == [mu] && [mu][..0] == [];
    assert OutgoingIn([mu], m) == [mu] && OutgoingIn([mu], c) == [];
    assert OutgoingIn([mu, mc], m) == [mu, mc] && OutgoingIn([mu, mc], c) == [];
  }

  /** The walk from m records [m, u], then visits c, which gets [c, m, u]
      through the chain m already has, and m's chain is overwritten with
      itself in front of c's: m appears twice. */
  lemma LastCalleeWins(m: MethodPath, u: MethodPath, c: MethodPath)
    requires m != u && m != c && c != u
    ensures var r := AnalyzeMethod(Overwrite(m, u, c), Fresh, m);
            m in r.unsafe && Methods(r.unsafe[m]) == [m, c, m, u]
  {
    OverwriteFirst(m, u, c);
    OverwriteSecond(m, u, c);
    var r := AnalyzeMethod(Overwrite(m, u, c), Fresh, m);
    assert Methods(r.unsafe[m]) == [m] + ([c] + ([m] + [u]));
  }

  /** After u: m has the chain [m, u]. */
  function AfterU(m: MethodPath, u: MethodPath): Analysis {
    Analysis({m, u}, map[u := Single(u), m := Prepend(m, Single(u))])
  }

  /** The two call sites of m. */
  function OverwriteSites(m: MethodPath, u: MethodPath, c: MethodPath): seq<CallSite> {
    [CallSite(m, u), CallSite(m, c)]
  }

  lemma AfterUSound(m: MethodPath, u: MethodPath, c: MethodPath)
    requires m != u && m != c && c != u
    ensures Sound(Overwrite(m, u, c), AfterU(m, u)) && !AssumedSafe(Overwrite(m, u, c), m)
    ensures var sites := OverwriteSites(m, u, c);
            forall j | 0 <= j < |sites| :: sites[j].from == m && sites[j] in Overwrite(m, u, c).graph.calls
  {
    var f := Overwrite(m, u, c);
    var a := AfterU(m, u);
    assert IsWitness(f, [u]);
    assert CallSite(m, u) == f.graph.calls[0];
    assert IsWitness(f, [m, u]);
    assert Methods(a.unsafe[m]) == [m, u];
  }

  /** The walk from m once u is done. */
  function OverwriteRest(m: MethodPath, u: MethodPath, c: MethodPath): Analysis
    requires m != u && m != c && c != u
  {
    AfterUSound(m, u, c);
    AnalyzeCallees(Overwrite(m, u, c), AfterU(m, u), m, OverwriteSites(m, u, c), 1)
  }

  lemma OverwriteFirst(m: MethodPath, u: MethodPath, c: MethodPath)
    requires m != u && m != c && c != u
    ensures AnalyzeMethod(Overwrite(m, u, c), Fresh, m) == OverwriteRest(m, u, c)
  {
    var f := Overwrite(m, u, c);
    OverwriteOutgoing(m, u, c);
    assert Fresh.(analyzed := Fresh.analyzed + {m}) == Analysis({m}, map[]);
    Enters(f, Fresh, m);
    OverwriteU(m, u, c);
  }

  lemma OverwriteU(m: MethodPath, u: MethodPath, c: MethodPath)
    requires m != u && m != c && c != u
    ensures var f := Overwrite(m, u, c);
            var sites := [CallSite(m, u), CallSite(m, c)];
            AnalyzeCallees(f, Analysis({m}, map[]), m, sites, 0) == OverwriteRest(m, u, c)
  {
    var f := Overwrite(m, u, c);
    var sites := [CallSite(m, u), CallSite(m, c)];
    var a1 := Analysis({m}, map[]);
    var a2 := AnalyzeMethod(f, a1, u);
    assert a2 == Analysis({m, u}, map[u := Single(u)]);
    Chained(f, a1, m, sites, 0, a2);
    var a3 := Record(f, a2, m, sites[0]);
    assert a3 == a2.(unsafe := a2.unsafe[m := Prepend(m, Single(u))]);
    assert a3.unsafe == map[u := Single(u), m := Prepend(m, Single(u))];
  }

  lemma OverwriteSecond(m: MethodPath, u: MethodPath, c: MethodPath)
    requires m != u && m != c && c != u
    ensures var r := OverwriteRest(m, u, c);
            m in r.unsafe && r.unsafe[m] == Prepend(m, Prepend(c, Prepend(m, Single(u))))
  {
    var f := Overwrite(m, u, c);
    var sites := OverwriteSites(m, u, c);
    var a3 := AfterU(m, u);
    AfterUSound(m, u, c);
    OverwriteOutgoing(m, u, c);
    CallsBackIntoChain(f, a3, c, m);
    var c2 := AnalyzeMethod(f, a3, c);
    Chained(f, a3, m, sites, 1, c2);
    var b3 := Record(f, c2, m, sites[1]);
    assert AnalyzeCallees(f, b3, m, sites, 2) == b3;
  }

  /** c, called from m, calls back m, which already has a chain: c gets
      itself in front of it. */
  lemma CallsBackIntoChain(f: Facts, a: Analysis, c: MethodPath, m: MethodPath)
    requires Sound(f, a) && c !in a.analyzed && !AssumedSafe(f, c) && LocallySafe(f, c)
    requires Outgoing(f.graph, c) == [CallSite(c, m)] && m in a.unsafe && m in a.analyzed
    ensures var r := AnalyzeMethod(f, a, c);
            c in r.unsafe && r.unsafe[c] == Prepend(c, a.unsafe[m]) && m in r.unsafe && r.unsafe[m] == a.unsafe[m]
  {
    var sites := [CallSite(c, m)];
    var b1 := a.(analyzed := a.analyzed + {c});
    Enters(f, a, c);
    assert AnalyzeMethod(f, b1, m) == b1;
    Chained(f, b1, c, sites, 0, b1);
    assert AnalyzeCallees(f, Record(f, b1, c, sites[0]), c, sites, 1) == Record(f, b1, c, sites[0]);
  }

  // ---------------------------------------------------------------------------
  // m1 -> m2 -> m3 -> m1 and m3 -> u; m2 and u do floating-point arithmetic,
  // m2 is strictfp

  function Ring(m1: MethodPath, m2: MethodPath, m3: MethodPath, u: MethodPath): Facts {
    Facts(Graph(map[], [CallSite(m1, m2), CallSite(m2, m3), CallSite(m3, m1), CallSite(m3, u)]), {m2, u}, {m2}, NoOverrides)
  }

  predicate Distinct4(m1: MethodPath, m2: MethodPath, m3: MethodPath, u: MethodPath) {
    m1 != m2 && m1 != m3 && m1 != u && m2 != m3 && m2 != u && m3 != u
  }

  lemma RingOutgoing(m1: MethodPath, m2: MethodPath, m3: MethodPath, u: MethodPath)
    requires Distinct4(m1, m2, m3, u)
    ensures Outgoing(Ring(m1, m2, m3, u).graph, m1) == [CallSite(m1, m2)]
    ensures Outgoing(Ring(m1, m2, m3, u).graph, m2) == [CallSite(m2, m3)]
    ensures Outgoing(Ring(m1, m2, m3, u).graph, m3) == [CallSite(m3, m1), CallSite(m3, u)]
  {
    var s12, s23, s31, s3u := CallSite(m1, m2), CallSite(m2, m3), CallSite(m3, m1), CallSite(m3, u);
    var log := [s12, s23, s31, s3u];
    assert log[..3] == [s12, s23, s31] && [s12, s23, s31][..2] == [s12, s23];
    assert [s12, s23][..1] == [s12] && [s12][..0] == [];
    assert OutgoingIn([s12], m1) == [s12] && OutgoingIn([s12], m2) == [] && OutgoingIn([s12], m3) == [];
    assert OutgoingIn([s12, s23], m1) == [s12] && OutgoingIn([s12, s23], m2) == [s23] && OutgoingIn([s12, s23], m3) == [];
    assert OutgoingIn([s12, s23, s31], m1) == [s12] && OutgoingIn([s12, s23, s31], m2) == [s23];
    assert OutgoingIn([s12, s23, s31], m3) == [s31];
  }

  /** The chain of m3 once the walk has been through it. */
  function RingThirdDone(m1: MethodPath, m2: MethodPath, m3: MethodPath, u: MethodPath): Analysis {
    Analysis({m1, m2, m3, u}, map[u := Single(u), m3 := Prepend(m3, Single(u))])
  }

  /** m3, entered from m2 while m1 and m2 are still being analysed, sees m1
      without a chain, then finds u: m3 gets [m3, u]. */
  lemma RingThird(m1: MethodPath, m2: MethodPath, m3: MethodPath, u: MethodPath)
    requires Distinct4(m1, m2, m3, u)
    ensures AnalyzeMethod(Ring(m1, m2, m3, u), Analysis({m1, m2}, map[]), m3) == RingThirdDone(m1, m2, m3, u)
  {
    var f := Ring(m1, m2, m3, u);
    var a := Analysis({m1, m2}, map[]);
    var b1 := Analysis({m1, m2, m3}, map[]);
    var sites := [CallSite(m3, m1), CallSite(m3, u)];
    RingOutgoing(m1, m2, m3, u);
    assert a.(analyzed := a.analyzed + {m3}) == b1;
    Enters(f, a, m3);
    assert AnalyzeMethod(f, b1, m1) == b1;
    Unchained(f, b1, m3, sites, 0, b1);
    var b2 := Analysis({m1, m2, m3, u}, map[u := Single(u)]);
    assert AnalyzeMethod(f, b1, u) == b2;
    Chained(f, b1, m3, sites, 1, b2);
    var b3 := Record(f, b2, m3, sites[1]);
    assert b3 == RingThirdDone(m1, m2, m3, u);
    assert AnalyzeCallees(f, b3, m3, sites, 2) == b3;
  }

  /** The chain of m2 once the walk has been through it. */
  function RingSecondDone(m1: MethodPath, m2: MethodPath, m3: MethodPath, u: MethodPath): Analysis {
    var t := RingThirdDone(m1, m2, m3, u);
    t.(unsafe := t.unsafe[m2 := Prepend(m2, t.unsafe[m3])])
  }

  /** m2 is strictfp and so safe in itself; it gets m3's chain with itself in
      front. */
  lemma RingSecond(m1: MethodPath, m2: MethodPath, m3: MethodPath, u: MethodPath)
    requires Distinct4(m1, m2, m3, u)
    ensures AnalyzeMethod(Ring(m1, m2, m3, u), Analysis({m1}, map[]), m2) == RingSecondDone(m1, m2, m3, u)
  {
    var f := Ring(m1, m2, m3, u);
    var a := Analysis({m1}, map[]);
    var b1 := Analysis({m1, m2}, map[]);
    var sites := [CallSite(m2, m3)];
    RingOutgoing(m1, m2, m3, u);
    assert a.(analyzed := a.analyzed + {m2}) == b1;
    Enters(f, a, m2);
    RingThird(m1, m2, m3, u);
    var t := RingThirdDone(m1, m2, m3, u);
    Chained(f, b1, m2, sites, 0, t);
    var b2 := Record(f, t, m2, sites[0]);
    assert b2 == RingSecondDone(m1, m2, m3, u);
    assert AnalyzeCallees(f, b2, m2, sites, 1) == b2;
  }

  /** The chain of m1 once the walk has been through it. */
  function RingFirstDone(m1: MethodPath, m2: MethodPath, m3: MethodPath, u: MethodPath): Analysis {
    var t := RingSecondDone(m1, m2, m3, u);
    t.(unsafe := t.unsafe[m1 := Prepend(m1, t.unsafe[m2])])
  }

  lemma RingFirst(m1: MethodPath, m2: MethodPath, m3: MethodPath, u: MethodPath)
    requires Distinct4(m1, m2, m3, u)
    ensures AnalyzeMethod(Ring(m1, m2, m3, u), Fresh, m1) == RingFirstDone(m1, m2, m3, u)
  {
    var f := Ring(m1, m2, m3, u);
    var a1 := Analysis({m1}, map[]);
    var sites := [CallSite(m1, m2)];
    RingOutgoing(m1, m2, m3, u);
    assert Fresh.(analyzed := Fresh.analyzed + {m1}) == a1;
    Enters(f, Fresh, m1);
    RingSecond(m1, m2, m3, u);
    var t := RingSecondDone(m1, m2, m3, u);
    Chained(f, a1, m1, sites, 0, t);
    var b := Record(f, t, m1, sites[0]);
    assert b == RingFirstDone(m1, m2, m3, u);
    assert AnalyzeCallees(f, b, m1, sites, 1) == b;
  }

  /** The ring of the analyser's tests: the walk from m1 gives m1 the chain
      m1, m2, m3, u, the call back from m3 to m1 notwithstanding. */
  lemma CyclicCallsInvolvingUnsafe(m1: MethodPath, m2: MethodPath, m3: MethodPath, u: MethodPath)
    requires Distinct4(m1, m2, m3, u)
    ensures var r := AnalyzeMethod(Ring(m1, m2, m3, u), Fresh, m1);
            m1 in r.unsafe && Methods(r.unsafe[m1]) == [m1, m2, m3, u]
  {
    RingFirst(m1, m2, m3, u);
    var b := RingFirstDone(m1, m2, m3, u);
    assert b.unsafe[m1] == Prepend(m1, Prepend(m2, Prepend(m3, Single(u))));
    assert Methods(b.unsafe[m1]) == [m1] + ([m2] + ([m3] + [u]));
  }

  // ---------------------------------------------------------------------------
  // a -> b, b -> a, a -> u, with u unsafe

  function Cycle(a: MethodPath, b: MethodPath, u: MethodPath): Facts {
    FactsOf([CallSite(a, b), CallSite(b, a), CallSite(a, u)], {u})
  }

  lemma CycleOutgoing(a: MethodPath, b: MethodPath, u: MethodPath)
    requires a != b && a != u && b != u
    ensures Outgoing(Cycle(a, b, u).graph, a) == [CallSite(a, b), CallSite(a, u)]
    ensures Outgoing(Cycle(a, b, u).graph, b) == [CallSite(b, a)]
  {
    var ab, ba, au := CallSite(a, b), CallSite(b, a), CallSite(a, u);
    var log := [ab, ba, au];
    assert log[..2] == [ab, ba] && [ab, ba][..1] == [ab] && [ab][..0] == [];
    assert OutgoingIn([ab], a) == [ab] && OutgoingIn([ab], b) == [];
    assert OutgoingIn([ab, ba], a) == [ab] && OutgoingIn([ab, ba], b) == [ba];
  }

  /** The walk from a marks a, visits b, which sees a analysed and without a
      chain yet, and so leaves b analysed without one; only then does a find
      u. The chain b -> a -> u exists all the same, and b is never analysed
      again. */
  lemma CycleLosesChain(a: MethodPath, b: MethodPath, u: MethodPath)
    requires a != b && a != u && b != u
    ensures var r := AnalyzeMethod(Cycle(a, b, u), Fresh, a);
            && b in r.analyzed && b !in r.unsafe
            && AnalyzeMethod(Cycle(a, b, u), r, b) == r
            && IsWitness(Cycle(a, b, u), [b, a, u])
  {
    CycleFirst(a, b, u);
    CycleSecond(a, b, u);
    CycleWitness(a, b, u);
  }

  /** b -> a -> u is a witness chain of the cycle. */
  lemma CycleWitness(a: MethodPath, b: MethodPath, u: MethodPath)
    requires a != b && a != u && b != u
    ensures IsWitness(Cycle(a, b, u), [b, a, u])
  {
    var f := Cycle(a, b, u);
    var ms := [b, a, u];
    assert CallSite(ms[0], ms[1]) == f.graph.calls[1];
    assert CallSite(ms[1], ms[2]) == f.graph.calls[2];
    assert forall i | 0 <= i < |ms| :: !AssumedSafe(f, ms[i]);
    assert !LocallySafe(f, u);
  }

  /** After b: both are analysed, neither has a chain. */
  function BothMarked(a: MethodPath, b: MethodPath): Analysis {
    Analysis({a, b}, map[])
  }

  lemma CycleFirst(a: MethodPath, b: MethodPath, u: MethodPath)
    requires a != b && a != u && b != u
    ensures AnalyzeMethod(Cycle(a, b, u), Fresh, a)
            == AnalyzeCallees(Cycle(a, b, u), BothMarked(a, b), a, [CallSite(a, b), CallSite(a, u)], 1)
  {
    var f := Cycle(a, b, u);
    var sites := [CallSite(a, b), CallSite(a, u)];
    CycleOutgoing(a, b, u);
    var a1 := Fresh.(analyzed := Fresh.analyzed + {a});
    assert a1 == Analysis({a}, map[]);
    Enters(f, Fresh, a);
    CycleInner(a, b, u);
    Unchained(f, a1, a, sites, 0, BothMarked(a, b));
  }

  /** b, entered while a is still being analysed, finds no chain at a. */
  lemma CycleInner(a: MethodPath, b: MethodPath, u: MethodPath)
    requires a != b && a != u && b != u
    ensures AnalyzeMethod(Cycle(a, b, u), Analysis({a}, map[]), b) == BothMarked(a, b)
  {
    var f := Cycle(a, b, u);
    var a1 := Analysis({a}, map[]);
    var b1 := BothMarked(a, b);
    var sites := [CallSite(b, a)];
    CycleOutgoing(a, b, u);
    assert a1.(analyzed := a1.analyzed + {b}) == b1;
    Enters(f, a1, b);
    assert AnalyzeMethod(f, b1, a) == b1;
    Unchained(f, b1, b, sites, 0, b1);
    assert AnalyzeCallees(f, b1, b, sites, 1) == b1;
  }

  lemma CycleSecond(a: MethodPath, b: MethodPath, u: MethodPath)
    requires a != b && a != u && b != u
    ensures AnalyzeCallees(Cycle(a, b, u), BothMarked(a, b), a, [CallSite(a, b), CallSite(a, u)], 1)
            == Analysis({a, b, u}, map[u := Single(u), a := Prepend(a, Single(u))])
  {
    var f := Cycle(a, b, u);
    var sites := [CallSite(a, b), CallSite(a, u)];
    var b1 := BothMarked(a, b);
    var b2 := Analysis({a, b, u}, map[u := Single(u)]);
    assert AnalyzeMethod(f, b1, u) == b2;
    Chained(f, b1, a, sites, 1, b2);
    var b3 := Record(f, b2, a, sites[1]);
    assert AnalyzeCallees(f, b3, a, sites, 2) == b3;
  }

  /** The completed analysis gives b a chain, and it is a witness. */
  lemma CycleChainRestored(a: MethodPath, b: MethodPath, u: MethodPath)
    requires a != b && a != u && b != u
    ensures var f := Cycle(a, b, u);
            var r := Propagate(f, AnalyzeMethod(f, Fresh, a));
            b in r.unsafe && IsWitness(f, Methods(r.unsafe[b]))
  {
    var f := Cycle(a, b, u);
    var w := AnalyzeMethod(f, Fresh, a);
    CycleLosesChain(a, b, u);
    assert Closed(f, w);
    PropagateKeepsClosed(f, w);
    var r := Propagate(f, w);
    ChainIffReachable(f, r, b);
    assert UnsafeReachable(f, b) by {
      assert IsWitness(f, [b, a, u]) && [b, a, u][0] == b;
    }
  }
}
