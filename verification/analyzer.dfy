/** The strictfp safety analyser: a depth-first walk of the call graph from
    the root methods that records, for every method found unsafe, a witness
    chain of calls ending at a method doing floating-point arithmetic without
    `strictfp`.

    A method is marked analysed before its callees are visited and is never
    analysed again, so the walk terminates on cycles. Methods assumed safe stop
    the walk; methods assumed unsafe, or doing local floating-point arithmetic
    outside `strictfp` and outside the whitelist, get the chain of themselves
    alone. Any other method gets, for every callee with a chain after the
    callee's analysis, itself in front of that chain: the last such callee
    wins. */
module Analyzer {
  import opened Wrappers
  import opened MethodPaths
  import opened NodeSets
  import opened CallGraphs
  import opened Roots
  import opened CallPaths

  /** The three override sets the analyser reads: `assumedSafe`,
      `assumedUnsafe`, and the floating-point whitelist. */
  datatype Settings = Settings(assumedSafe: NodeSet, assumedUnsafe: NodeSet, fpmathWhitelist: NodeSet)

  /** What the analyser reads and never changes: the call graph, the methods
      the builder found doing floating-point arithmetic, the `strictfp`
      methods, and the settings. */
  datatype Facts = Facts(graph: Graph, localFpMath: set<MethodPath>, strictfp: set<MethodPath>, settings: Settings)

  /** What the analyser writes: the analysed methods and the unsafe chains. */
  datatype Analysis = Analysis(analyzed: set<MethodPath>, unsafe: map<MethodPath, CallPath>)

  const Fresh: Analysis := Analysis({}, map[])

  predicate AssumedSafe(f: Facts, m: MethodPath) {
    ContainsMethod(f.settings.assumedSafe, m)
  }

  predicate AssumedUnsafe(f: Facts, m: MethodPath) {
    ContainsMethod(f.settings.assumedUnsafe, m)
  }

  predicate Whitelisted(f: Facts, m: MethodPath) {
    ContainsMethod(f.settings.fpmathWhitelist, m)
  }

  /** `isLocallySafe`: not assumed unsafe, and either free of floating-point
      arithmetic, `strictfp`, or whitelisted. */
  predicate LocallySafe(f: Facts, m: MethodPath) {
    !AssumedUnsafe(f, m) && (m !in f.localFpMath || m in f.strictfp || Whitelisted(f, m))
  }

  // ---------------------------------------------------------------------------
  // What a recorded chain means

  /** A chain of real calls, none of whose methods is assumed safe, ending at
      a method that is not locally safe. */
  ghost predicate IsWitness(f: Facts, ms: seq<MethodPath>) {
    && |ms| > 0
    && (forall i | 0 <= i < |ms| - 1 :: CallSite(ms[i], ms[i + 1]) in f.graph.calls)
    && (forall i | 0 <= i < |ms| :: !AssumedSafe(f, ms[i]))
    && !LocallySafe(f, ms[|ms| - 1])
  }

  /** Every method with a chain has been analysed, and its chain starts at it
      and is a witness. */
  ghost predicate Sound(f: Facts, a: Analysis) {
    forall k | k in a.unsafe :: k in a.analyzed && a.unsafe[k].node == k && IsWitness(f, Methods(a.unsafe[k]))
  }

  /** `unsafeCallPaths.get(k)`. */
  function Lookup(a: Analysis, k: MethodPath): Option<CallPath> {
    if k in a.unsafe then Some(a.unsafe[k]) else None
  }

  /** The entries of `keys` are the same in both analyses. */
  ghost predicate Frozen(a: Analysis, b: Analysis, keys: set<MethodPath>) {
    forall k | k in keys :: Lookup(a, k) == Lookup(b, k)
  }

  lemma WitnessOfOne(f: Facts, m: MethodPath)
    requires !AssumedSafe(f, m) && !LocallySafe(f, m)
    ensures IsWitness(f, Methods(Single(m)))
  {
  }

  /** A caller that is not assumed safe extends a witness of its callee. */
  lemma WitnessExtend(f: Facts, m: MethodPath, rest: CallPath)
    requires !AssumedSafe(f, m) && CallSite(m, rest.node) in f.graph.calls
    requires IsWitness(f, Methods(rest))
    ensures IsWitness(f, Methods(Prepend(m, rest)))
  {
    var ms := Methods(Prepend(m, rest));
    assert ms == [m] + Methods(rest);
    forall i | 0 <= i < |ms| - 1 ensures CallSite(ms[i], ms[i + 1]) in f.graph.calls {
      if i > 0 { assert ms[i] == Methods(rest)[i - 1] && ms[i + 1] == Methods(rest)[i]; }
    }
    forall i | 0 <= i < |ms| ensures !AssumedSafe(f, ms[i]) {
      if i > 0 { assert ms[i] == Methods(rest)[i - 1]; }
    }
  }

  // ---------------------------------------------------------------------------
  // Termination

  /** Every method some call site arrives at. */
  ghost function CalleesOf(g: Graph): set<MethodPath> {
    set i | 0 <= i < |g.calls| :: g.calls[i].to
  }

  /** The callees not yet analysed, plus one while `m` is neither analysed nor a callee. */
  ghost function Pending(f: Facts, a: Analysis, m: MethodPath): nat {
    |CalleesOf(f.graph) - a.analyzed| + (if m in CalleesOf(f.graph) || m in a.analyzed then 0 else 1)
  }

  lemma DiffMonotone(d: set<MethodPath>, a: set<MethodPath>, b: set<MethodPath>)
    requires a <= b
    ensures |d - b| <= |d - a|
  {
    var x := d - b;
    var y := d - a;
    assert y == x + (y - x) && x * (y - x) == {};
  }

  lemma DiffMarked(d: set<MethodPath>, a: set<MethodPath>, m: MethodPath)
    requires m !in a
    ensures |d - (a + {m})| + (if m in d then 1 else 0) == |d - a|
  {
    if m in d {
      assert d - a == (d - (a + {m})) + {m};
    } else {
      assert d - a == d - (a + {m});
    }
  }

  // ---------------------------------------------------------------------------
  // What a finished analysis leaves behind

  /** Unless `k` is assumed safe: it has a chain when it is not locally safe,
      and every method it calls has been analysed when it is. */
  ghost predicate Done(f: Facts, a: Analysis, k: MethodPath) {
    !AssumedSafe(f, k) ==>
      && (!LocallySafe(f, k) ==> k in a.unsafe)
      && (LocallySafe(f, k) ==> forall s | s in f.graph.calls && s.from == k :: s.to in a.analyzed)
  }

  /** Every method analysed in `b` but not in `a` is done in `b`. */
  ghost predicate NewlyDone(f: Facts, a: Analysis, b: Analysis) {
    forall k | k in b.analyzed - a.analyzed :: Done(f, b, k)
  }

  /** Analysing more and recording more chains keeps a method done. */
  lemma DoneGrows(f: Facts, a: Analysis, b: Analysis, k: MethodPath)
    requires Done(f, a, k) && a.analyzed <= b.analyzed && a.unsafe.Keys <= b.unsafe.Keys
    ensures Done(f, b, k)
  {
  }

  /** The last of the sites from the `i`-th on whose callee has a chain. */
  function LastChained(a: Analysis, sites: seq<CallSite>, i: nat): (r: Option<nat>)
    requires i <= |sites|
    ensures r.Some? ==> i <= r.value < |sites| && sites[r.value].to in a.unsafe
    ensures r.Some? ==> forall j | r.value < j < |sites| :: sites[j].to !in a.unsafe
    ensures r.None? ==> forall j | i <= j < |sites| :: sites[j].to !in a.unsafe
    decreases |sites| - i
  {
    if i == |sites| then None
    else match LastChained(a, sites, i + 1)
      case Some(j) => Some(j)
      case None => if sites[i].to in a.unsafe then Some(i) else None
  }

  /** The chain of `m` after its callees from the `i`-th on were visited: the
      chain it had before when no callee has one, otherwise `m` in front of the
      chain of the last callee that has one. */
  ghost predicate LastWins(a: Analysis, r: Analysis, m: MethodPath, sites: seq<CallSite>, i: nat)
    requires i <= |sites|
  {
    match LastChained(r, sites, i)
    case None => Lookup(r, m) == Lookup(a, m)
    case Some(j) => Lookup(r, m) == Some(Prepend(m, r.unsafe[sites[j].to]))
  }

  predicate CallsItself(g: Graph, m: MethodPath) {
    CallSite(m, m) in g.calls
  }

  // ---------------------------------------------------------------------------
  // The walk

  /** `analyzeMethod`. */
  function AnalyzeMethod(f: Facts, a: Analysis, m: MethodPath): (r: Analysis)
    requires Sound(f, a)
    ensures Sound(f, r)
    ensures a.analyzed + {m} <= r.analyzed && a.unsafe.Keys <= r.unsafe.Keys
    ensures Frozen(a, r, a.analyzed)
    ensures NewlyDone(f, a, r)
    ensures m in a.analyzed ==> r == a
    ensures m !in a.analyzed && AssumedSafe(f, m) ==> r == a.(analyzed := a.analyzed + {m})
    ensures m !in a.analyzed && !AssumedSafe(f, m) && !LocallySafe(f, m) ==>
              r == Analysis(a.analyzed + {m}, a.unsafe[m := Single(m)])
    ensures m !in a.analyzed && !AssumedSafe(f, m) && LocallySafe(f, m) && !CallsItself(f.graph, m) ==>
              LastWins(a, r, m, Outgoing(f.graph, m), 0)
    decreases Pending(f, a, m), 0
  {
    if m in a.analyzed then a
    else
      var a1 := a.(analyzed := a.analyzed + {m});
      if AssumedSafe(f, m) then
        MarkSafe(f, a, m);
        a1
      else if !LocallySafe(f, m) then
        MarkUnsafe(f, a, m);
        a1.(unsafe := a1.unsafe[m := Single(m)])
      else
        DiffMarked(CalleesOf(f.graph), a.analyzed, m);
        var sites := Outgoing(f.graph, m);
        var r := AnalyzeCallees(f, a1, m, sites, 0);
        MethodDone(f, a, a1, r, m, sites);
        r
  }

  /** An assumed-safe method is only marked. */
  lemma MarkSafe(f: Facts, a: Analysis, m: MethodPath)
    requires Sound(f, a) && m !in a.analyzed && AssumedSafe(f, m)
    ensures var r := a.(analyzed := a.analyzed + {m});
            Sound(f, r) && Frozen(a, r, a.analyzed) && NewlyDone(f, a, r)
  {
  }

  /** A method that is not locally safe gets the chain of itself alone. */
  lemma MarkUnsafe(f: Facts, a: Analysis, m: MethodPath)
    requires Sound(f, a) && m !in a.analyzed && !AssumedSafe(f, m) && !LocallySafe(f, m)
    ensures var r := Analysis(a.analyzed + {m}, a.unsafe[m := Single(m)]);
            Sound(f, r) && Frozen(a, r, a.analyzed) && NewlyDone(f, a, r)
  {
    WitnessOfOne(f, m);
    var r := Analysis(a.analyzed + {m}, a.unsafe[m := Single(m)]);
    assert r.analyzed - a.analyzed == {m};
  }

  /** After the loop over all its outgoing sites, a locally safe method is
      done, and its chain is decided by its last chained callee. */
  lemma MethodDone(f: Facts, a: Analysis, a1: Analysis, r: Analysis, m: MethodPath, sites: seq<CallSite>)
    requires sites == Outgoing(f.graph, m) && Sound(f, a) && m !in a.analyzed && LocallySafe(f, m)
    requires a1 == a.(analyzed := a.analyzed + {m})
    requires forall j | 0 <= j < |sites| :: sites[j].to in r.analyzed
    requires a1.analyzed <= r.analyzed && a1.unsafe.Keys <= r.unsafe.Keys && NewlyDone(f, a1, r)
    requires Frozen(a1, r, a1.analyzed - {m})
    requires (forall j | 0 <= j < |sites| :: sites[j].to != m) ==> LastWins(a1, r, m, sites, 0)
    ensures NewlyDone(f, a, r) && Frozen(a, r, a.analyzed)
    ensures !CallsItself(f.graph, m) ==> LastWins(a, r, m, sites, 0)
  {
    forall s | s in f.graph.calls && s.from == m ensures s.to in r.analyzed {
      OutgoingExact(f.graph.calls, m, s);
      var j :| 0 <= j < |sites| && sites[j] == s;
    }
    assert Done(f, r, m);
    if !CallsItself(f.graph, m) {
      forall j | 0 <= j < |sites| ensures sites[j].to != m {
        OutgoingExact(f.graph.calls, m, sites[j]);
      }
    }
  }

  /** The loop of `analyzeMethod` over the outgoing calls of `m`, from the
      `i`-th on: each callee is analysed, and when it then has a chain, `m`
      gets itself in front of that chain. */
  function AnalyzeCallees(f: Facts, a: Analysis, m: MethodPath, sites: seq<CallSite>, i: nat): (r: Analysis)
    requires Sound(f, a) && m in a.analyzed && !AssumedSafe(f, m)
    requires i <= |sites|
    requires forall j | 0 <= j < |sites| :: sites[j].from == m && sites[j] in f.graph.calls
    ensures Sound(f, r)
    ensures a.analyzed <= r.analyzed && a.unsafe.Keys <= r.unsafe.Keys
    ensures forall j | i <= j < |sites| :: sites[j].to in r.analyzed
    ensures Frozen(a, r, a.analyzed - {m})
    ensures NewlyDone(f, a, r)
    ensures (forall j | i <= j < |sites| :: sites[j].to != m) ==> LastWins(a, r, m, sites, i)
    decreases |CalleesOf(f.graph) - a.analyzed|, 1, |sites| - i
  {
    if i == |sites| then a
    else
      var to := sites[i].to;
      assert to in CalleesOf(f.graph) by {
        var k :| 0 <= k < |f.graph.calls| && f.graph.calls[k] == sites[i];
      }
      var a2 := AnalyzeMethod(f, a, to);
      var a3 := if to in a2.unsafe then Record(f, a2, m, sites[i]) else a2;
      DiffMonotone(CalleesOf(f.graph), a.analyzed, a3.analyzed);
      var r := AnalyzeCallees(f, a3, m, sites, i + 1);
      CalleesStep(f, a, a2, a3, r, m, sites, i);
      CalleesLast(a, a2, a3, r, m, sites, i);
      r
  }

  /** `unsafeCallPaths.put(m, new CallPath(m, unsafe))` for the chain of the
      callee of `site`. */
  function Record(f: Facts, a: Analysis, m: MethodPath, site: CallSite): (r: Analysis)
    requires Sound(f, a) && m in a.analyzed && !AssumedSafe(f, m)
    requires site.from == m && site in f.graph.calls && site.to in a.unsafe
    ensures Sound(f, r) && r.analyzed == a.analyzed && a.unsafe.Keys + {m} == r.unsafe.Keys
    ensures Frozen(a, r, a.analyzed - {m})
    ensures r.unsafe[m] == Prepend(m, a.unsafe[site.to])
  {
    var to := site.to;
    assert site == CallSite(m, to);
    WitnessExtend(f, m, a.unsafe[to]);
    a.(unsafe := a.unsafe[m := Prepend(m, a.unsafe[to])])
  }

  lemma CalleesStep(f: Facts, a: Analysis, a2: Analysis, a3: Analysis, r: Analysis, m: MethodPath, sites: seq<CallSite>, i: nat)
    requires i < |sites|
    requires a.analyzed + {sites[i].to} <= a2.analyzed && Frozen(a, a2, a.analyzed)
    requires a.unsafe.Keys <= a2.unsafe.Keys && NewlyDone(f, a, a2)
    requires a3.analyzed == a2.analyzed && Frozen(a2, a3, a2.analyzed - {m}) && a2.unsafe.Keys <= a3.unsafe.Keys
    requires a3.analyzed <= r.analyzed && Frozen(a3, r, a3.analyzed - {m})
    requires a3.unsafe.Keys <= r.unsafe.Keys && NewlyDone(f, a3, r)
    requires forall j | i + 1 <= j < |sites| :: sites[j].to in r.analyzed
    ensures a.analyzed <= r.analyzed && a.unsafe.Keys <= r.unsafe.Keys
    ensures forall j | i <= j < |sites| :: sites[j].to in r.analyzed
    ensures Frozen(a, r, a.analyzed - {m})
    ensures NewlyDone(f, a, r)
  {
    forall k | k in r.analyzed - a.analyzed ensures Done(f, r, k) {
      if k in a2.analyzed {
        DoneGrows(f, a2, r, k);
      }
    }
  }

  lemma CalleesLast(a: Analysis, a2: Analysis, a3: Analysis, r: Analysis, m: MethodPath, sites: seq<CallSite>, i: nat)
    requires i < |sites| && m in a.analyzed
    requires sites[i].to in a2.analyzed && Frozen(a, a2, a.analyzed)
    requires a3.analyzed == a2.analyzed && Frozen(a2, a3, a2.analyzed - {m})
    requires sites[i].to in a2.unsafe ==> m in a3.unsafe && a3.unsafe[m] == Prepend(m, a2.unsafe[sites[i].to])
    requires sites[i].to !in a2.unsafe ==> a3 == a2
    requires Frozen(a3, r, a3.analyzed - {m})
    requires (forall j | i + 1 <= j < |sites| :: sites[j].to != m) ==> LastWins(a3, r, m, sites, i + 1)
    ensures (forall j | i <= j < |sites| :: sites[j].to != m) ==> LastWins(a, r, m, sites, i)
  {
    var to := sites[i].to;
    if forall j | i <= j < |sites| :: sites[j].to != m {
      assert to != m;
      assert Lookup(r, to) == Lookup(a3, to) == Lookup(a2, to);
      assert Lookup(a2, m) == Lookup(a, m);
    }
  }

  // ---------------------------------------------------------------------------
  // Roots

  /** `analyzeMethod` applied to every method of `ms` the root matches, in
      order, each on the result of the one before. */
  function AnalyzeEach(f: Facts, a: Analysis, root: Root, ms: seq<MethodPath>): (r: Analysis)
    requires Sound(f, a)
    ensures Sound(f, r)
    decreases |ms|
  {
    if |ms| == 0 then a
    else
      var prev := AnalyzeEach(f, a, root, ms[..|ms| - 1]);
      var m := ms[|ms| - 1];
      if MatchesMethod(root, m.name, m.desc) then AnalyzeMethod(f, prev, m) else prev
  }

  /** Walking `ms` then `ns` is walking `ns` from where `ms` left off. */
  lemma {:induction false} AnalyzeEachAppend(f: Facts, a: Analysis, root: Root, ms: seq<MethodPath>, ns: seq<MethodPath>)
    requires Sound(f, a)
    ensures AnalyzeEach(f, a, root, ms + ns) == AnalyzeEach(f, AnalyzeEach(f, a, root, ms), root, ns)
    decreases |ns|
  {
    if |ns| == 0 {
      assert ms + ns == ms;
    } else {
      var init := ns[..|ns| - 1];
      assert (ms + ns)[..|ms + ns| - 1] == ms + init;
      assert (ms + ns)[|ms + ns| - 1] == ns[|ns| - 1];
      AnalyzeEachAppend(f, a, root, ms, init);
    }
  }

  /** A method the root does not match is passed over; one it matches is
      walked from the state the earlier ones left. */
  lemma AnalyzeEachOne(f: Facts, a: Analysis, root: Root, m: MethodPath)
    requires Sound(f, a)
    ensures MatchesMethod(root, m.name, m.desc) ==> AnalyzeEach(f, a, root, [m]) == AnalyzeMethod(f, a, m)
    ensures !MatchesMethod(root, m.name, m.desc) ==> AnalyzeEach(f, a, root, [m]) == a
  {
    assert [m][..0] == [];
  }

  /** `addRoot`: the root's class must be in the graph; every method of its
      inherited-methods list that the root matches is analysed, in order. */
  method AnalyzeRoot(f: Facts, a: Analysis, root: Root) returns (r: Result<Analysis, GraphError>)
    requires Valid(f.graph) && Sound(f, a)
    ensures root.className !in f.graph.classes ==> r == Failure(NoSuchClass(root.className))
    ensures r.Success? <==> root.className in f.graph.classes && Hierarchy(f.graph, root.className).Success?
    ensures r.Success? ==> Sound(f, r.value) && a.analyzed <= r.value.analyzed && Frozen(a, r.value, a.analyzed)
    ensures r.Success? ==> a.unsafe.Keys <= r.value.unsafe.Keys && NewlyDone(f, a, r.value)
    ensures r.Success? ==> forall m | m in MethodsIncludingInherited(f.graph, root.className).value
                                      && MatchesMethod(root, m.name, m.desc) :: m in r.value.analyzed
    ensures r.Success? ==> r.value == AnalyzeEach(f, a, root, MethodsIncludingInherited(f.graph, root.className).value)
  {
    var cls := GetClass(f.graph, root.className);
    if cls.Failure? {
      return Failure(cls.error);
    }
    var inherited := MethodsIncludingInherited(f.graph, root.className);
    if inherited.Failure? {
      return Failure(inherited.error);
    }
    var cur := AnalyzeMatching(f, a, root, inherited.value);
    r := Success(cur);
  }

  /** Analyses, in order, every method of `ms` that the root matches. */
  method AnalyzeMatching(f: Facts, a: Analysis, root: Root, ms: seq<MethodPath>) returns (cur: Analysis)
    requires Sound(f, a)
    ensures Sound(f, cur) && a.analyzed <= cur.analyzed && Frozen(a, cur, a.analyzed)
    ensures a.unsafe.Keys <= cur.unsafe.Keys && NewlyDone(f, a, cur)
    ensures forall m | m in ms && MatchesMethod(root, m.name, m.desc) :: m in cur.analyzed
    ensures cur == AnalyzeEach(f, a, root, ms)
  {
    cur := a;
    var i := 0;
    while i < |ms|
      invariant 0 <= i <= |ms|
      invariant Sound(f, cur) && a.analyzed <= cur.analyzed && Frozen(a, cur, a.analyzed)
      invariant a.unsafe.Keys <= cur.unsafe.Keys && NewlyDone(f, a, cur)
      invariant forall j | 0 <= j < i && MatchesMethod(root, ms[j].name, ms[j].desc) :: ms[j] in cur.analyzed
      invariant cur == AnalyzeEach(f, a, root, ms[..i])
    {
      assert ms[..i + 1][..i] == ms[..i];
      if MatchesMethod(root, ms[i].name, ms[i].desc) {
        var next := AnalyzeMethod(f, cur, ms[i]);
        FrozenTrans(a, cur, next, a.analyzed, cur.analyzed);
        NewlyDoneTrans(f, a, cur, next);
        cur := next;
      }
      i := i + 1;
    }
    forall m | m in ms && MatchesMethod(root, m.name, m.desc) ensures m in cur.analyzed {
      var j :| 0 <= j < |ms| && ms[j] == m;
    }
    assert ms[..|ms|] == ms;
  }

  lemma NewlyDoneTrans(f: Facts, a: Analysis, b: Analysis, c: Analysis)
    requires NewlyDone(f, a, b) && NewlyDone(f, b, c)
    requires b.analyzed <= c.analyzed && b.unsafe.Keys <= c.unsafe.Keys
    ensures NewlyDone(f, a, c)
  {
    forall k | k in c.analyzed - a.analyzed ensures Done(f, c, k) {
      if k in b.analyzed {
        DoneGrows(f, b, c, k);
      }
    }
  }

  lemma FrozenTrans(a: Analysis, b: Analysis, c: Analysis, k1: set<MethodPath>, k2: set<MethodPath>)
    requires Frozen(a, b, k1) && Frozen(b, c, k2) && k1 <= k2
    ensures Frozen(a, c, k1)
  {
  }

  // ---------------------------------------------------------------------------
  // Properties

  /** A recorded chain never runs through a method assumed safe; in
      particular such a method never gets one. */
  lemma AssumedSafeNeverUnsafe(f: Facts, a: Analysis, m: MethodPath)
    requires Sound(f, a) && AssumedSafe(f, m)
    ensures m !in a.unsafe
    ensures forall k | k in a.unsafe :: m !in Methods(a.unsafe[k])
  {
    forall k | k in a.unsafe ensures m !in Methods(a.unsafe[k]) {
      assert IsWitness(f, Methods(a.unsafe[k]));
    }
  }

  /** Assumed-safe is checked first, so a method in both override sets is
      analysed as safe and none of its callees is visited through it. */
  lemma AssumedSafeWins(f: Facts, a: Analysis, m: MethodPath)
    requires Sound(f, a) && m !in a.analyzed
    requires AssumedSafe(f, m) && AssumedUnsafe(f, m)
    ensures m !in AnalyzeMethod(f, a, m).unsafe
    ensures AnalyzeMethod(f, a, m).analyzed == a.analyzed + {m}
  {
    assert m !in a.unsafe;
  }

  /** An assumed-unsafe method that is not assumed safe gets the chain of
      itself alone, whatever its body does. */
  lemma AssumedUnsafeIsUnsafe(f: Facts, a: Analysis, m: MethodPath)
    requires Sound(f, a) && m !in a.analyzed
    requires !AssumedSafe(f, m) && AssumedUnsafe(f, m)
    ensures AnalyzeMethod(f, a, m).unsafe[m] == Single(m)
  {
  }

  /** Once a method has been analysed its entry never changes again, whatever
      is analysed next. */
  lemma EntryIsFinal(f: Facts, a: Analysis, m: MethodPath, x: MethodPath)
    requires Sound(f, a)
    ensures var b := AnalyzeMethod(f, a, m);
            Lookup(AnalyzeMethod(f, b, x), m) == Lookup(b, m)
  {
  }
}
