/** The work loop of the builder: roots put methods on the method queue;
    the loop drains the class queue first, then tries the method at the head
    of the method queue, which is dropped only once processed. Processing a
    method records one call site per call its body makes to a method that is
    not ignored, and queues each callee that is not yet processed. */
module BuildLoop {
  import opened Wrappers
  import opened MethodPaths
  import opened NodeSets
  import opened CallGraphs
  import opened Roots
  import opened Builder
  import CallGraphFacts
  import opened SetFacts

  // ---------------------------------------------------------------------------
  // Processing one method

  /** The owners of `calls` that are neither in the graph nor ignored, one
      entry per call, in order: what `enqueueUndiscoveredCalleeClasses`
      appends to the class queue, and whose length it returns. */
  function UndiscoveredOwners(env: Env, g: Graph, calls: seq<MethodPath>): (r: seq<string>)
    ensures |r| <= |calls|
    ensures forall x :: x in r <==> exists i | 0 <= i < |calls| :: calls[i].owner == x && ClassNotYetDiscovered(env, g, x)
  {
    if |calls| == 0 then []
    else
      var rest := UndiscoveredOwners(env, g, calls[1..]);
      assert forall i | 0 < i < |calls| :: calls[i] == calls[1..][i - 1];
      if ClassNotYetDiscovered(env, g, calls[0].owner) then [calls[0].owner] + rest else rest
  }

  /** The calls of a method body that `processCallsFromMethod` does not skip. */
  function NotIgnored(env: Env, calls: seq<MethodPath>): (r: seq<MethodPath>)
    ensures |r| <= |calls|
    ensures forall p :: p in r <==> p in calls && !ShouldIgnoreMethod(env, p)
  {
    if |calls| == 0 then []
    else
      var rest := NotIgnored(env, calls[1..]);
      assert forall p :: p in calls <==> p == calls[0] || p in calls[1..];
      if ShouldIgnoreMethod(env, calls[0]) then rest else [calls[0]] + rest
  }

  /** What `getMethodNode` gives for a callee: lookup on the owner's class,
      which must be in the graph. */
  function Resolve(g: Graph, callee: MethodPath): (r: Result<MethodPath, GraphError>)
    requires Valid(g)
    ensures callee.owner !in g.classes ==> r == Failure(NoSuchClass(callee.owner))
    ensures r.Success? ==> KeyOf(r.value) == KeyOf(callee) && r.value in MethodsOf(g)
    ensures r.Success? ==> callee.owner in g.classes && r == GetMethod(g, callee.owner, KeyOf(callee))
  {
    var _ :- GetClass(g, callee.owner);
    GetMethod(g, callee.owner, KeyOf(callee))
  }

  /** The method node of each callee, in order; the first callee that does
      not resolve is the error. */
  function ResolveEach(g: Graph, callees: seq<MethodPath>): (r: Result<seq<MethodPath>, BuildError>)
    requires Valid(g)
    ensures r.Success? <==> forall i | 0 <= i < |callees| :: Resolve(g, callees[i]).Success?
    ensures r.Success? ==> |r.value| == |callees|
    ensures r.Success? ==> forall i | 0 <= i < |callees| :: Resolve(g, callees[i]) == Success(r.value[i])
    ensures r.Failure? ==> r.error.GraphFailure?
  {
    if |callees| == 0 then Success([])
    else
      var target :- Lift(Resolve(g, callees[0]));
      var rest :- ResolveEach(g, callees[1..]);
      ResolvedCons(g, callees, target, rest);
      Success([target] + rest)
  }

  lemma ResolvedCons(g: Graph, callees: seq<MethodPath>, target: MethodPath, rest: seq<MethodPath>)
    requires Valid(g) && |callees| > 0 && |rest| == |callees| - 1
    requires Resolve(g, callees[0]) == Success(target)
    requires forall i | 0 <= i < |rest| :: Resolve(g, callees[1..][i]) == Success(rest[i])
    ensures forall i | 0 <= i < |callees| :: Resolve(g, callees[i]) == Success(([target] + rest)[i])
  {
    var all := [target] + rest;
    forall i | 0 <= i < |callees| ensures Resolve(g, callees[i]) == Success(all[i]) {
      if i > 0 {
        assert callees[i] == callees[1..][i - 1] && all[i] == rest[i - 1];
      }
    }
  }

  /** The call sites from `from` to each target, in order. */
  function SitesTo(from: MethodPath, targets: seq<MethodPath>): (r: seq<CallSite>)
    ensures |r| == |targets|
    ensures forall i | 0 <= i < |r| :: r[i] == CallSite(from, targets[i])
  {
    if |targets| == 0 then [] else [CallSite(from, targets[0])] + SitesTo(from, targets[1..])
  }

  /** The callees whose target is not processed, in order. */
  function Unprocessed(done: set<MethodPath>, callees: seq<MethodPath>, targets: seq<MethodPath>): (r: seq<MethodPath>)
    requires |callees| == |targets|
    ensures |r| <= |callees|
    ensures forall p :: p in r <==> exists i | 0 <= i < |callees| :: callees[i] == p && targets[i] !in done
  {
    if |callees| == 0 then []
    else
      var rest := Unprocessed(done, callees[1..], targets[1..]);
      assert forall i | 0 < i < |callees| :: callees[i] == callees[1..][i - 1] && targets[i] == targets[1..][i - 1];
      if targets[0] in done then rest else [callees[0]] + rest
  }

  /** The loop of `processCallsFromMethod` over resolved callees: a call site
      per callee, and the callee queued unless its node is processed. */
  function RecordCalls(st: BuildState, from: MethodPath, callees: seq<MethodPath>, targets: seq<MethodPath>): (r: BuildState)
    requires |callees| == |targets|
    ensures r.graph.classes == st.graph.classes
    ensures r.graph.calls == st.graph.calls + SitesTo(from, targets)
    ensures r.methodQueue == st.methodQueue + Unprocessed(st.done, callees, targets)
    ensures r.classQueue == st.classQueue && r.done == st.done && r.pending == st.pending
    decreases |callees|
  {
    if |callees| == 0 then st
    else
      var st1 := st.(graph := AddCall(st.graph, from, targets[0]),
                     methodQueue := if targets[0] in st.done then st.methodQueue else st.methodQueue + [callees[0]]);
      var r := RecordCalls(st1, from, callees[1..], targets[1..]);
      RecordStep(st.graph.calls, st.methodQueue, st.done, from, callees, targets);
      r
  }

  lemma RecordStep(log: seq<CallSite>, q: seq<MethodPath>, done: set<MethodPath>, from: MethodPath,
                   callees: seq<MethodPath>, targets: seq<MethodPath>)
    requires |callees| == |targets| > 0
    ensures log + [CallSite(from, targets[0])] + SitesTo(from, targets[1..]) == log + SitesTo(from, targets)
    ensures (if targets[0] in done then q else q + [callees[0]]) + Unprocessed(done, callees[1..], targets[1..])
            == q + Unprocessed(done, callees, targets)
  {
    var head := [CallSite(from, targets[0])];
    var tail := SitesTo(from, targets[1..]);
    assert SitesTo(from, targets) == head + tail;
    assert log + head + tail == log + (head + tail);
    var rest := Unprocessed(done, callees[1..], targets[1..]);
    if targets[0] !in done {
      assert Unprocessed(done, callees, targets) == [callees[0]] + rest;
      assert q + [callees[0]] + rest == q + ([callees[0]] + rest);
    }
  }

  /** `processCallsFromMethod`: the method is marked processed, its recorded
      calls are taken out, and each one not ignored becomes a call site
      leaving it, in order. A method with no recorded calls dereferences
      `null`. */
  function ProcessCalls(env: Env, st: BuildState, node: MethodPath): (r: Result<BuildState, BuildError>)
    requires Valid(st.graph)
    ensures node !in st.pending ==> r == Failure(MissingCallList(node))
    ensures r.Failure? ==> r.error.MissingCallList? || r.error.GraphFailure?
    ensures r.Success? ==> node in st.pending && ResolveEach(st.graph, NotIgnored(env, st.pending[node])).Success?
    ensures r.Success? ==>
      var callees := NotIgnored(env, st.pending[node]);
      var targets := ResolveEach(st.graph, callees).value;
      && r.value.graph.classes == st.graph.classes
      && r.value.done == st.done + {node}
      && r.value.pending == st.pending - {node}
      && r.value.classQueue == st.classQueue
      && r.value.graph.calls == st.graph.calls + SitesTo(node, targets)
      && Outgoing(r.value.graph, node) == Outgoing(st.graph, node) + SitesTo(node, targets)
      && (forall m | m != node :: Outgoing(r.value.graph, m) == Outgoing(st.graph, m))
      && r.value.methodQueue == st.methodQueue + Unprocessed(st.done + {node}, callees, targets)
  {
    if node !in st.pending then Failure(MissingCallList(node))
    else
      var callees := NotIgnored(env, st.pending[node]);
      var targets :- ResolveEach(st.graph, callees);
      var st1 := st.(done := st.done + {node}, pending := st.pending - {node});
      var r := RecordCalls(st1, node, callees, targets);
      OutgoingOfBatch(st.graph.calls, node, SitesTo(node, targets));
      Success(r)
  }

  /** `tryProcessMethod`: whether the method can leave the queue. A method
      of an undiscovered class queues that class; otherwise the method node
      lookup finds is tried. */
  function TryProcessMethod(env: Env, st: BuildState, m: MethodPath): (r: Result<(BuildState, bool), BuildError>)
    requires DecoderAcyclic(env) && GraphInv(env, st.graph)
    ensures !HasClass(st.graph, m.owner) ==> r == Success((st.(classQueue := st.classQueue + [m.owner]), false))
    ensures r.Success? ==> r.value.0.graph.classes == st.graph.classes
    ensures r.Success? ==> |r.value.0.methodQueue| >= |st.methodQueue| && r.value.0.methodQueue[..|st.methodQueue|] == st.methodQueue
    ensures r.Success? && r.value.1 ==> r.value.0.classQueue == st.classQueue
    ensures r.Success? && !r.value.1 ==> r.value.0.methodQueue == st.methodQueue && r.value.0.done == st.done
    ensures r.Success? ==> st.done <= r.value.0.done
    ensures r.Success? && r.value.1 && m in MethodsOf(st.graph) ==> m in r.value.0.done
    ensures r.Failure? ==> r.error.MissingCallList? || r.error.GraphFailure?
  {
    if !HasClass(st.graph, m.owner) then Success((st.(classQueue := st.classQueue + [m.owner]), false))
    else
      GraphInvValid(env, st.graph);
      var node :- Lift(GetMethod(st.graph, m.owner, KeyOf(m)));
      FoundIsSelf(st.graph, m, node);
      TryProcessNode(env, st, node)
  }

  /** The rest of `tryProcessMethod`, for the node lookup found: a processed
      node is done; one whose callees' classes are all discovered or ignored
      is processed; otherwise those classes are queued, as many times as they
      are called. */
  function TryProcessNode(env: Env, st: BuildState, node: MethodPath): (r: Result<(BuildState, bool), BuildError>)
    requires Valid(st.graph)
    ensures node in st.done ==> r == Success((st, true))
    ensures r.Success? ==> r.value.0.graph.classes == st.graph.classes
    ensures r.Success? ==> |r.value.0.methodQueue| >= |st.methodQueue| && r.value.0.methodQueue[..|st.methodQueue|] == st.methodQueue
    ensures r.Success? && r.value.1 ==> r.value.0.classQueue == st.classQueue && node in r.value.0.done
    ensures r.Success? && !r.value.1 ==>
      && r.value.0 == st.(classQueue := r.value.0.classQueue)
      && |r.value.0.classQueue| > |st.classQueue|
      && r.value.0.classQueue[..|st.classQueue|] == st.classQueue
      && forall i | |st.classQueue| <= i < |r.value.0.classQueue| ::
           ClassNotYetDiscovered(env, st.graph, r.value.0.classQueue[i])
    ensures r.Success? ==> st.done <= r.value.0.done
    ensures r.Failure? ==> r.error.MissingCallList? || r.error.GraphFailure?
  {
    if node in st.done then Success((st, true))
    else
      var missing := UndiscoveredOwners(env, st.graph, if node in st.pending then st.pending[node] else []);
      if |missing| == 0 then
        var st1 :- ProcessCalls(env, st, node);
        Success((st1, true))
      else
        var q := st.classQueue + missing;
        assert forall i | |st.classQueue| <= i < |q| :: q[i] in missing;
        Success((st.(classQueue := q), false))
  }

  /** Lookup of a method on the class that declares it finds that very
      method. */
  lemma FoundIsSelf(g: Graph, m: MethodPath, node: MethodPath)
    requires Valid(g) && m.owner in g.classes && GetMethod(g, m.owner, KeyOf(m)) == Success(node)
    ensures m in MethodsOf(g) ==> node == m
  {
    if m in MethodsOf(g) {
      CallGraphFacts.OwnDeclarationShadows(g, m.owner, KeyOf(m));
    }
  }

  // ---------------------------------------------------------------------------
  // The main loop

  /** `workClassDiscoveryQueue`: the head class is taken off the queue and
      discovered unless it is in the graph. */
  function WorkClassQueue(env: Env, st: BuildState): (r: Result<BuildState, BuildError>)
    requires DecoderAcyclic(env) && GraphInv(env, st.graph) && |st.classQueue| > 0
    ensures HasClass(st.graph, st.classQueue[0]) ==> r == Success(st.(classQueue := st.classQueue[1..]))
    ensures r.Success? ==> Extends(env, st.(classQueue := st.classQueue[1..]), r.value, Measure(env, st.classQueue[0]) + 1, {})
    ensures r.Success? && !HasClass(st.graph, st.classQueue[0]) && !ShouldIgnoreClass(env, st.classQueue[0]) ==>
              HasClass(r.value.graph, st.classQueue[0])
    ensures r.Success? && ShouldIgnoreClass(env, st.classQueue[0]) ==> r.value == st.(classQueue := st.classQueue[1..])
    ensures r.Failure? ==> r.error.ClassNotFound? || r.error.WrappedClassNotFound? || r.error.GraphFailure?
  {
    var name := st.classQueue[0];
    var st1 := st.(classQueue := st.classQueue[1..]);
    if HasClass(st1.graph, name) then Success(st1)
    else
      var p :- Discover(env, st1, name);
      Success(p.0)
  }

  /** One turn of `mainLoop`: the class queue first, then the head of the
      method queue. A missing class wrapped during discovery is unwrapped. */
  function Step(env: Env, st: BuildState): (r: Result<BuildState, BuildError>)
    requires DecoderAcyclic(env) && GraphInv(env, st.graph)
    requires |st.classQueue| > 0 || |st.methodQueue| > 0
    ensures r.Failure? ==> !r.error.WrappedClassNotFound? && !r.error.RootClassNotFound?
    ensures r.Success? && |st.classQueue| > 0 ==>
              && r.value.classQueue == st.classQueue[1..]
              && r.value.methodQueue == st.methodQueue
              && r.value.done == st.done
              && r.value.graph.calls == st.graph.calls
  {
    if |st.classQueue| > 0 then
      match WorkClassQueue(env, st)
      case Success(s) => Success(s)
      case Failure(WrappedClassNotFound(x)) => Failure(ClassNotFound(x))
      case Failure(e) => Failure(e)
    else
      var p :- TryProcessMethod(env, st, st.methodQueue[0]);
      Success(if p.1 then p.0.(methodQueue := p.0.methodQueue[1..]) else p.0)
  }

  /** Every queued method has an owner that is not ignored. */
  predicate QueuedOwnersKept(env: Env, st: BuildState) {
    forall i | 0 <= i < |st.methodQueue| :: !ShouldIgnoreClass(env, st.methodQueue[i].owner)
  }

  /** The class queue holds a class still to be discovered. */
  predicate PendingDiscovery(env: Env, st: BuildState) {
    exists i | 0 <= i < |st.classQueue| :: ClassNotYetDiscovered(env, st.graph, st.classQueue[i])
  }

  /** The loop's measure, most significant first: classes the decoder has
      that are not yet in the graph; whether a class is waiting to be
      discovered (0 when one is); methods in the graph not yet processed;
      the two queue lengths. */
  ghost function Undecoded(env: Env, st: BuildState): nat {
    |env.decoder.Keys - st.graph.classes.Keys|
  }

  function Flag(env: Env, st: BuildState): nat {
    if PendingDiscovery(env, st) then 0 else 1
  }

  ghost function UnprocessedCount(st: BuildState): nat {
    |MethodsOf(st.graph) - st.done|
  }

  /** The measure decreases lexicographically from `a` to `b`. */
  ghost predicate Progress(env: Env, a: BuildState, b: BuildState)
    requires DecoderAcyclic(env)
  {
    || Undecoded(env, b) < Undecoded(env, a)
    || (Undecoded(env, b) == Undecoded(env, a)
        && (|| Flag(env, b) < Flag(env, a)
            || (Flag(env, b) == Flag(env, a)
                && (|| UnprocessedCount(b) < UnprocessedCount(a)
                    || (UnprocessedCount(b) == UnprocessedCount(a)
                        && (|| |b.methodQueue| < |a.methodQueue|
                            || (|b.methodQueue| == |a.methodQueue| && |b.classQueue| < |a.classQueue|)))))))
  }

  /** What the loop keeps true: the graph follows the decoder, queued
      methods have owners that are not ignored, and every processed method
      and every call-site end is a method of the graph. */
  ghost predicate LoopInv(env: Env, st: BuildState) {
    && GraphInv(env, st.graph)
    && QueuedOwnersKept(env, st)
    && st.done <= MethodsOf(st.graph)
    && (forall i | 0 <= i < |st.graph.calls| ::
          st.graph.calls[i].from in MethodsOf(st.graph) && st.graph.calls[i].to in MethodsOf(st.graph))
  }

  /** From `a` to `b` nothing recorded is lost: classes are only added,
      existing ones are unchanged, the call log is only appended to and
      processed methods stay processed. */
  ghost predicate Grows(a: BuildState, b: BuildState) {
    && a.graph.classes.Keys <= b.graph.classes.Keys
    && (forall c | c in a.graph.classes :: b.graph.classes[c] == a.graph.classes[c])
    && |a.graph.calls| <= |b.graph.calls| && b.graph.calls[..|a.graph.calls|] == a.graph.calls
    && a.done <= b.done
  }

  lemma GrowsTrans(a: BuildState, b: BuildState, c: BuildState)
    requires Grows(a, b) && Grows(b, c)
    ensures Grows(a, c)
  {
    assert c.graph.calls[..|a.graph.calls|] == c.graph.calls[..|b.graph.calls|][..|a.graph.calls|];
  }

  lemma GrowsKeepsMethods(a: BuildState, b: BuildState)
    requires Grows(a, b)
    ensures MethodsOf(a.graph) <= MethodsOf(b.graph)
  {
  }

  /** A class step: the head leaves the class queue and is discovered when
      it is neither in the graph nor ignored. */
  lemma ClassStepProgress(env: Env, st: BuildState)
    requires DecoderAcyclic(env) && LoopInv(env, st) && |st.classQueue| > 0
    requires WorkClassQueue(env, st).Success?
    ensures var b := WorkClassQueue(env, st).value;
      LoopInv(env, b) && Progress(env, st, b) && Grows(st, b)
  {
    var name := st.classQueue[0];
    var st1 := st.(classQueue := st.classQueue[1..]);
    var b := WorkClassQueue(env, st).value;
    assert Extends(env, st1, b, Measure(env, name) + 1, {});
    assert b.graph.calls == st.graph.calls;
    assert Grows(st, b);
    GrowsKeepsMethods(st, b);
    if HasClass(st.graph, name) || ShouldIgnoreClass(env, name) {
      assert b == st1;
      if PendingDiscovery(env, st) {
        var i :| 0 <= i < |st.classQueue| && ClassNotYetDiscovered(env, st.graph, st.classQueue[i]);
        assert i > 0 && st1.classQueue[i - 1] == st.classQueue[i];
      }
      if PendingDiscovery(env, st1) {
        var i :| 0 <= i < |st1.classQueue| && ClassNotYetDiscovered(env, st1.graph, st1.classQueue[i]);
        assert st.classQueue[i + 1] == st1.classQueue[i];
      }
    } else {
      assert name in env.decoder && HasClass(b.graph, name);
      DiffShrinks(env.decoder.Keys, st.graph.classes.Keys, b.graph.classes.Keys, name);
    }
  }

  /** A method step: the head of the method queue is tried; it leaves the
      queue once processed. */
  lemma MethodStepProgress(env: Env, st: BuildState)
    requires DecoderAcyclic(env) && LoopInv(env, st)
    requires |st.classQueue| == 0 && |st.methodQueue| > 0
    requires Step(env, st).Success?
    ensures var b := Step(env, st).value;
      LoopInv(env, b) && Progress(env, st, b) && Grows(st, b)
  {
    var m := st.methodQueue[0];
    var p := TryProcessMethod(env, st, m).value;
    var b := Step(env, st).value;
    assert b == if p.1 then p.0.(methodQueue := p.0.methodQueue[1..]) else p.0;
    if !HasClass(st.graph, m.owner) {
      QueueOnlyProgress(env, st, b);
    } else {
      GraphInvValid(env, st.graph);
      var node := GetMethod(st.graph, m.owner, KeyOf(m)).value;
      assert TryProcessNode(env, st, node) == Success(p);
      NodeStepProgress(env, st, node, p, b);
    }
  }

  lemma NodeStepProgress(env: Env, st: BuildState, node: MethodPath, p: (BuildState, bool), b: BuildState)
    requires DecoderAcyclic(env) && LoopInv(env, st) && Valid(st.graph)
    requires |st.classQueue| == 0 && |st.methodQueue| > 0 && node in MethodsOf(st.graph)
    requires TryProcessNode(env, st, node) == Success(p)
    requires b == if p.1 then p.0.(methodQueue := p.0.methodQueue[1..]) else p.0
    ensures LoopInv(env, b) && Progress(env, st, b) && Grows(st, b)
  {
    if node in st.done || !p.1 {
      QueueOnlyProgress(env, st, b);
    } else {
      ProcessStepProgress(env, st, node, p.0, b);
    }
  }

  /** A step that changes only the queues: either the head method leaves,
      or classes still to be discovered are queued. */
  lemma QueueOnlyProgress(env: Env, st: BuildState, b: BuildState)
    requires DecoderAcyclic(env) && LoopInv(env, st)
    requires |st.classQueue| == 0 && |st.methodQueue| > 0
    requires b.graph == st.graph && b.done == st.done
    requires || (b.methodQueue == st.methodQueue && |b.classQueue| > 0 && ClassNotYetDiscovered(env, b.graph, b.classQueue[0]))
             || (b.methodQueue == st.methodQueue[1..] && b.classQueue == [])
    ensures LoopInv(env, b) && Progress(env, st, b) && Grows(st, b)
  {
    assert !PendingDiscovery(env, st);
    assert Grows(st, b);
    if b.methodQueue == st.methodQueue[1..] && b.classQueue == [] {
      assert forall i | 0 <= i < |b.methodQueue| :: b.methodQueue[i] == st.methodQueue[i + 1];
    }
  }

  lemma ProcessStepProgress(env: Env, st: BuildState, node: MethodPath, s: BuildState, b: BuildState)
    requires DecoderAcyclic(env) && LoopInv(env, st) && Valid(st.graph)
    requires |st.classQueue| == 0 && |st.methodQueue| > 0
    requires node in MethodsOf(st.graph) && node !in st.done
    requires ProcessCalls(env, st, node) == Success(s)
    requires |s.methodQueue| > 0 && b == s.(methodQueue := s.methodQueue[1..])
    ensures LoopInv(env, b) && Progress(env, st, b) && Grows(st, b)
  {
    var callees := NotIgnored(env, st.pending[node]);
    var targets := ResolveEach(st.graph, callees).value;
    ProcessKeepsSites(env, st, node, s);
    ProcessedState(env, st, node, s, b, callees, targets);
  }

  lemma ProcessedState(env: Env, st: BuildState, node: MethodPath, s: BuildState, b: BuildState,
                       callees: seq<MethodPath>, targets: seq<MethodPath>)
    requires DecoderAcyclic(env) && LoopInv(env, st)
    requires |st.classQueue| == 0 && |st.methodQueue| > 0
    requires node in MethodsOf(st.graph) && node !in st.done
    requires |callees| == |targets| && forall p | p in callees :: !ShouldIgnoreMethod(env, p)
    requires s.graph.classes == st.graph.classes && s.done == st.done + {node} && s.classQueue == st.classQueue
    requires s.methodQueue == st.methodQueue + Unprocessed(st.done + {node}, callees, targets)
    requires |st.graph.calls| <= |s.graph.calls| && s.graph.calls[..|st.graph.calls|] == st.graph.calls
    requires forall i | 0 <= i < |s.graph.calls| ::
               s.graph.calls[i].from in MethodsOf(s.graph) && s.graph.calls[i].to in MethodsOf(s.graph)
    requires b == s.(methodQueue := s.methodQueue[1..])
    ensures LoopInv(env, b) && Progress(env, st, b) && Grows(st, b)
  {
    ProcessedProgress(env, st, node, b);
    SameClassesInv(env, st.graph, b.graph);
    OwnersAfterProcessing(env, st.methodQueue, st.done + {node}, callees, targets);
  }

  /** Processing a method of the graph adds it to the processed set of an
      otherwise unchanged graph, which decreases the measure. */
  lemma ProcessedProgress(env: Env, st: BuildState, node: MethodPath, b: BuildState)
    requires DecoderAcyclic(env) && LoopInv(env, st)
    requires |st.classQueue| == 0 && node in MethodsOf(st.graph) && node !in st.done
    requires b.graph.classes == st.graph.classes && b.done == st.done + {node} && b.classQueue == []
    requires |st.graph.calls| <= |b.graph.calls| && b.graph.calls[..|st.graph.calls|] == st.graph.calls
    ensures Progress(env, st, b) && Grows(st, b) && b.done <= MethodsOf(b.graph)
  {
    ProcessedCount(st, node, b);
    assert Flag(env, b) == 1 && Flag(env, st) == 1;
    assert Undecoded(env, b) == Undecoded(env, st);
  }

  lemma ProcessedCount(st: BuildState, node: MethodPath, b: BuildState)
    requires node in MethodsOf(st.graph) && node !in st.done && st.done <= MethodsOf(st.graph)
    requires b.graph.classes == st.graph.classes && b.done == st.done + {node}
    ensures UnprocessedCount(b) < UnprocessedCount(st) && b.done <= MethodsOf(b.graph)
  {
    var ms := MethodsOf(st.graph);
    assert MethodsOf(b.graph) == ms;
    DiffShrinks(ms, st.done, b.done, node);
  }

  /** Dropping the head of a queue of kept owners and appending unprocessed
      kept callees keeps every owner unignored. */
  lemma OwnersAfterProcessing(env: Env, q: seq<MethodPath>, done: set<MethodPath>,
                              callees: seq<MethodPath>, targets: seq<MethodPath>)
    requires |q| > 0 && |callees| == |targets|
    requires forall i | 0 <= i < |q| :: !ShouldIgnoreClass(env, q[i].owner)
    requires forall p | p in callees :: !ShouldIgnoreMethod(env, p)
    ensures var b := (q + Unprocessed(done, callees, targets))[1..];
            forall i | 0 <= i < |b| :: !ShouldIgnoreClass(env, b[i].owner)
  {
    var u := Unprocessed(done, callees, targets);
    var b := (q + u)[1..];
    forall i | 0 <= i < |b| ensures !ShouldIgnoreClass(env, b[i].owner) {
      if i + 1 >= |q| {
        var p := b[i];
        assert p == u[i + 1 - |q|];
        assert p in u;
        var j :| 0 <= j < |callees| && callees[j] == p && targets[j] !in done;
        assert callees[j] in callees;
      } else {
        assert b[i] == q[i + 1];
      }
    }
  }

  lemma SameClassesInv(env: Env, g: Graph, h: Graph)
    requires GraphInv(env, g) && h.classes == g.classes
    ensures GraphInv(env, h)
  {
    assert LinksPresent(h);
  }

  /** Sites from a member of `ms` to members of `ms`, appended to sites
      between members of `ms`, are again between members of `ms`. */
  lemma SitesWithin(base: seq<CallSite>, node: MethodPath, targets: seq<MethodPath>, ms: set<MethodPath>)
    requires forall i | 0 <= i < |base| :: base[i].from in ms && base[i].to in ms
    requires node in ms && forall k | 0 <= k < |targets| :: targets[k] in ms
    ensures var all := base + SitesTo(node, targets);
            forall i | 0 <= i < |all| :: all[i].from in ms && all[i].to in ms
  {
    var sites := SitesTo(node, targets);
    var all := base + sites;
    forall i | 0 <= i < |all| ensures all[i].from in ms && all[i].to in ms {
      if i >= |base| {
        assert all[i] == sites[i - |base|];
      } else {
        assert all[i] == base[i];
      }
    }
  }

  /** Processing appends call sites between methods of the graph. */
  lemma ProcessKeepsSites(env: Env, st: BuildState, node: MethodPath, s: BuildState)
    requires Valid(st.graph) && node in MethodsOf(st.graph)
    requires forall i | 0 <= i < |st.graph.calls| ::
               st.graph.calls[i].from in MethodsOf(st.graph) && st.graph.calls[i].to in MethodsOf(st.graph)
    requires ProcessCalls(env, st, node) == Success(s)
    ensures |st.graph.calls| <= |s.graph.calls| && s.graph.calls[..|st.graph.calls|] == st.graph.calls
    ensures forall i | 0 <= i < |s.graph.calls| ::
              s.graph.calls[i].from in MethodsOf(s.graph) && s.graph.calls[i].to in MethodsOf(s.graph)
  {
    var callees := NotIgnored(env, st.pending[node]);
    var targets := ResolveEach(st.graph, callees).value;
    var r := RecordCalls(st.(done := st.done + {node}, pending := st.pending - {node}), node, callees, targets);
    assert s == r;
    assert s.graph.calls == st.graph.calls + SitesTo(node, targets);
    assert MethodsOf(s.graph) == MethodsOf(st.graph);
    assert forall k | 0 <= k < |targets| :: targets[k] in MethodsOf(st.graph) by {
      forall k | 0 <= k < |targets| ensures targets[k] in MethodsOf(st.graph) {
        assert Resolve(st.graph, callees[k]) == Success(targets[k]);
      }
    }
    SitesWithin(st.graph.calls, node, targets, MethodsOf(st.graph));
  }

  /** One turn of the loop keeps the invariant, shrinks the measure and
      loses nothing. */
  lemma StepProgress(env: Env, st: BuildState)
    requires DecoderAcyclic(env) && LoopInv(env, st)
    requires |st.classQueue| > 0 || |st.methodQueue| > 0
    requires Step(env, st).Success?
    ensures LoopInv(env, Step(env, st).value) && Progress(env, st, Step(env, st).value) && Grows(st, Step(env, st).value)
  {
    if |st.classQueue| > 0 {
      ClassStepProgress(env, st);
    } else {
      MethodStepProgress(env, st);
    }
  }

  /** A declared method that is queued or processed stays so, and it leaves
      the queue only by being processed: lookup of a method on the class
      that declares it finds that very method. */
  lemma StepKeepsTracked(env: Env, st: BuildState, p: MethodPath)
    requires DecoderAcyclic(env) && LoopInv(env, st)
    requires |st.classQueue| > 0 || |st.methodQueue| > 0
    requires Step(env, st).Success?
    requires p in MethodsOf(st.graph) && (p in st.done || p in st.methodQueue)
    ensures p in Step(env, st).value.done || p in Step(env, st).value.methodQueue
  {
    if |st.classQueue| > 0 {
      var b := WorkClassQueue(env, st).value;
      assert Extends(env, st.(classQueue := st.classQueue[1..]), b, Measure(env, st.classQueue[0]) + 1, {});
    } else if p !in st.done {
      MethodStepKeepsTracked(env, st, p);
    }
  }

  lemma MethodStepKeepsTracked(env: Env, st: BuildState, p: MethodPath)
    requires DecoderAcyclic(env) && GraphInv(env, st.graph)
    requires |st.classQueue| == 0 && |st.methodQueue| > 0
    requires Step(env, st).Success?
    requires p in MethodsOf(st.graph) && p in st.methodQueue
    ensures p in Step(env, st).value.done || p in Step(env, st).value.methodQueue
  {
    var m := st.methodQueue[0];
    var t := TryProcessMethod(env, st, m).value;
    var b := Step(env, st).value;
    assert b == if t.1 then t.0.(methodQueue := t.0.methodQueue[1..]) else t.0;
    if t.1 && p != m {
      DequeueKeeps(st.methodQueue, t.0.methodQueue, p);
    }
  }

  /** An element other than the head of `q` survives growing the queue and
      taking its head off. */
  lemma DequeueKeeps(q: seq<MethodPath>, q1: seq<MethodPath>, p: MethodPath)
    requires |q1| >= |q| && q1[..|q|] == q
    requires p in q && p != q[0]
    ensures p in q1[1..]
  {
    var i :| 0 <= i < |q| && q[i] == p;
    assert q1[i] == p;
    assert q1[1..][i - 1] == p;
  }

  /** One turn of `mainLoop` keeps what the loop promises about the state it
      started from. */
  lemma LoopTurn(env: Env, st: BuildState, cur: BuildState)
    requires DecoderAcyclic(env) && LoopInv(env, cur) && Grows(st, cur)
    requires |cur.classQueue| > 0 || |cur.methodQueue| > 0
    requires Step(env, cur).Success?
    requires forall p | p in st.methodQueue && p in MethodsOf(st.graph) :: p in cur.done || p in cur.methodQueue
    ensures LoopInv(env, Step(env, cur).value) && Grows(st, Step(env, cur).value)
    ensures Progress(env, cur, Step(env, cur).value)
    ensures forall p | p in st.methodQueue && p in MethodsOf(st.graph) ::
              p in Step(env, cur).value.done || p in Step(env, cur).value.methodQueue
  {
    var next := Step(env, cur).value;
    StepProgress(env, cur);
    forall p | p in st.methodQueue && p in MethodsOf(st.graph)
      ensures p in next.done || p in next.methodQueue
    {
      GrowsKeepsMethods(st, cur);
      StepKeepsTracked(env, cur, p);
    }
    GrowsTrans(st, cur, next);
  }

  /** A turn of the loop keeps the call graph closed if it was closed when
      the loop started. */
  lemma TurnKeepsClosure(env: Env, st: BuildState, cur: BuildState)
    requires DecoderAcyclic(env) && LoopInv(env, cur)
    requires |cur.classQueue| > 0 || |cur.methodQueue| > 0
    requires Step(env, cur).Success?
    requires Closure(env, st) ==> Closure(env, cur)
    ensures Closure(env, st) ==> Closure(env, Step(env, cur).value)
  {
    if Closure(env, st) {
      StepKeepsClosure(env, cur);
    }
  }

  /** Once the queues are empty, a closure kept from the start is complete. */
  lemma IdleClosed(env: Env, st: BuildState, cur: BuildState)
    requires cur.methodQueue == []
    requires Closure(env, st) ==> Closure(env, cur)
    ensures Closure(env, st) ==> Closed(env, cur)
  {
    if Closure(env, st) {
      ClosedWhenIdle(env, cur);
    }
  }

  /** The body of `mainLoop`: one step, with what the loop keeps about the
      state it started from. */
  method Turn(env: Env, st: BuildState, cur: BuildState) returns (next: Result<BuildState, BuildError>)
    requires DecoderAcyclic(env) && LoopInv(env, cur) && Grows(st, cur)
    requires |cur.classQueue| > 0 || |cur.methodQueue| > 0
    requires forall p | p in st.methodQueue && p in MethodsOf(st.graph) :: p in cur.done || p in cur.methodQueue
    requires Closure(env, st) ==> Closure(env, cur)
    ensures next.Success? ==> LoopInv(env, next.value) && Grows(st, next.value) && Progress(env, cur, next.value)
    ensures next.Success? ==> forall p | p in st.methodQueue && p in MethodsOf(st.graph) ::
              p in next.value.done || p in next.value.methodQueue
    ensures next.Success? && Closure(env, st) ==> Closure(env, next.value)
    ensures next.Failure? ==> next.error.ClassNotFound? || next.error.GraphFailure? || next.error.MissingCallList?
  {
    next := Step(env, cur);
    if next.Success? {
      LoopTurn(env, st, cur);
      TurnKeepsClosure(env, st, cur);
    }
  }

  /** `mainLoop`: steps until both queues are empty or a step fails. On
      success every declared method that was queued has been processed, and
      nothing recorded before was lost. */
  method MainLoop(env: Env, st: BuildState) returns (r: Result<BuildState, BuildError>)
    requires DecoderAcyclic(env) && LoopInv(env, st)
    ensures st.classQueue == [] && st.methodQueue == [] ==> r == Success(st)
    ensures r.Success? ==> r.value.classQueue == [] && r.value.methodQueue == []
    ensures r.Success? ==> LoopInv(env, r.value) && Grows(st, r.value)
    ensures r.Success? ==> forall p | p in st.methodQueue && p in MethodsOf(st.graph) :: p in r.value.done
    ensures r.Success? && Closure(env, st) ==> Closure(env, r.value) && Closed(env, r.value)
    ensures r.Failure? ==> r.error.ClassNotFound? || r.error.GraphFailure? || r.error.MissingCallList?
  {
    var cur := st;
    while |cur.classQueue| > 0 || |cur.methodQueue| > 0
      invariant LoopInv(env, cur) && Grows(st, cur)
      invariant st.classQueue == [] && st.methodQueue == [] ==> cur == st
      invariant forall p | p in st.methodQueue && p in MethodsOf(st.graph) :: p in cur.done || p in cur.methodQueue
      invariant Closure(env, st) ==> Closure(env, cur)
      decreases Undecoded(env, cur), Flag(env, cur), UnprocessedCount(cur), |cur.methodQueue|, |cur.classQueue|
    {
      var next := Turn(env, st, cur);
      if next.Failure? {
        return Failure(next.error);
      }
      cur := next.value;
    }
    IdleClosed(env, st, cur);
    return Success(cur);
  }

  // ---------------------------------------------------------------------------
  // What the processed methods add up to

  /** Every call site leaves a processed method. */
  ghost predicate SitesFromDone(st: BuildState) {
    forall i | 0 <= i < |st.graph.calls| :: st.graph.calls[i].from in st.done
  }

  /** Lookup for the queued method `q` finds the node `t`. */
  ghost predicate ResolvesTo(g: Graph, q: MethodPath, t: MethodPath) {
    Valid(g) && Resolve(g, q) == Success(t)
  }

  /** Every call site arrives at a processed method, or at the node lookup
      finds for a method still queued. */
  ghost predicate TargetsTracked(st: BuildState) {
    forall i | 0 <= i < |st.graph.calls| :: Tracked(st, st.graph.calls[i].to)
  }

  /** `t` is processed, or lookup finds it for a method still queued. */
  ghost predicate Tracked(st: BuildState, t: MethodPath) {
    t in st.done || exists q | q in st.methodQueue :: ResolvesTo(st.graph, q, t)
  }

  /** The call sites leaving `m` are those of its body's `calls`: one per
      call that is not ignored, to the node lookup finds for it, in order. */
  ghost predicate EdgesOf(env: Env, g: Graph, m: MethodPath, calls: seq<MethodPath>) {
    && BodyCalls(env, m, calls)
    && Valid(g)
    && ResolveEach(g, NotIgnored(env, calls)).Success?
    && Outgoing(g, m) == SitesTo(m, ResolveEach(g, NotIgnored(env, calls)).value)
  }

  /** Every processed method has the call sites its body gives. */
  ghost predicate EdgesRecorded(env: Env, st: BuildState) {
    forall m | m in st.done :: exists calls :: EdgesOf(env, st.graph, m, calls)
  }

  /** What processing keeps true of the recorded calls, the log and the
      method queue. */
  ghost predicate Closure(env: Env, st: BuildState) {
    PendingInv(env, st) && SitesFromDone(st) && TargetsTracked(st) && EdgesRecorded(env, st)
  }

  /** The graph is closed under calls: every call site leaves and reaches a
      processed method, and every processed method has exactly the call
      sites its body gives. */
  ghost predicate Closed(env: Env, st: BuildState) {
    && SitesFromDone(st)
    && (forall i | 0 <= i < |st.graph.calls| :: st.graph.calls[i].to in st.done)
    && EdgesRecorded(env, st)
  }

  /** Once the method queue is empty, every call site reaches a processed
      method. */
  lemma ClosedWhenIdle(env: Env, st: BuildState)
    requires Closure(env, st) && st.methodQueue == []
    ensures Closed(env, st)
  {
  }

  /** In a closed graph, each node lookup finds for a call of a processed
      method's body is processed too. */
  lemma ClosedCalleesDone(env: Env, st: BuildState, m: MethodPath, calls: seq<MethodPath>)
    requires Closed(env, st) && m in st.done && EdgesOf(env, st.graph, m, calls)
    ensures forall t | t in ResolveEach(st.graph, NotIgnored(env, calls)).value :: t in st.done
  {
    SitesReachDone(st.graph.calls, st.done, m, ResolveEach(st.graph, NotIgnored(env, calls)).value);
  }

  lemma SitesReachDone(log: seq<CallSite>, done: set<MethodPath>, m: MethodPath, targets: seq<MethodPath>)
    requires forall i | 0 <= i < |log| :: log[i].to in done
    requires OutgoingIn(log, m) == SitesTo(m, targets)
    ensures forall t | t in targets :: t in done
  {
    var sites := OutgoingIn(log, m);
    forall t | t in targets ensures t in done {
      var k :| 0 <= k < |targets| && targets[k] == t;
      assert sites[k] == CallSite(m, t) && sites[k] in log;
    }
  }

  /** A graph with the same classes is as well formed. */
  lemma SameClassesValid(g: Graph, h: Graph)
    requires Valid(g) && h.classes == g.classes
    ensures Valid(h) && Keeps(g, h)
  {
    assert Ranked(h, RankOf(g));
    assert LinksPresent(h);
  }

  /** Adding classes does not change what lookup finds for a callee whose
      class was there. */
  lemma ResolveKept(g: Graph, h: Graph, q: MethodPath)
    requires Valid(g) && Valid(h) && Keeps(g, h) && q.owner in g.classes
    ensures Resolve(h, q) == Resolve(g, q)
  {
    GetMethodKept(g, h, q.owner, KeyOf(q));
  }

  lemma {:induction false} ResolveEachKept(g: Graph, h: Graph, callees: seq<MethodPath>)
    requires Valid(g) && Valid(h) && Keeps(g, h) && ResolveEach(g, callees).Success?
    ensures ResolveEach(h, callees) == ResolveEach(g, callees)
    decreases |callees|
  {
    if |callees| > 0 {
      assert Resolve(g, callees[0]).Success?;
      ResolveKept(g, h, callees[0]);
      ResolveEachKept(g, h, callees[1..]);
    }
  }

  /** No logged site leaves `m`, so it has no outgoing sites. */
  lemma OutgoingNone(log: seq<CallSite>, m: MethodPath)
    requires forall i | 0 <= i < |log| :: log[i].from != m
    ensures OutgoingIn(log, m) == []
    decreases |log|
  {
    if |log| > 0 {
      var init := log[..|log| - 1];
      assert forall i | 0 <= i < |init| :: init[i] == log[i];
      OutgoingNone(init, m);
    }
  }

  /** Adding classes, and nothing else, keeps the closure. */
  lemma ClosureKeptByGrowth(env: Env, a: BuildState, b: BuildState)
    requires Valid(a.graph) && Valid(b.graph) && Keeps(a.graph, b.graph)
    requires b.graph.calls == a.graph.calls && b.done == a.done && b.methodQueue == a.methodQueue
    requires Closure(env, a) && PendingInv(env, b)
    ensures Closure(env, b)
  {
    forall i | 0 <= i < |b.graph.calls| ensures Tracked(b, b.graph.calls[i].to) {
      var t := a.graph.calls[i].to;
      assert Tracked(a, t);
      if t !in a.done {
        var q :| q in a.methodQueue && ResolvesTo(a.graph, q, t);
        ResolveKept(a.graph, b.graph, q);
        assert ResolvesTo(b.graph, q, t);
      }
    }
    forall m | m in b.done ensures exists calls :: EdgesOf(env, b.graph, m, calls) {
      var calls :| EdgesOf(env, a.graph, m, calls);
      EdgesKept(env, a.graph, b.graph, m, calls);
    }
  }

  /** Adding classes, and no call site leaving `m`, keeps `m`'s edges. */
  lemma EdgesKept(env: Env, g: Graph, h: Graph, m: MethodPath, calls: seq<MethodPath>)
    requires EdgesOf(env, g, m, calls) && Valid(h) && Keeps(g, h) && Outgoing(h, m) == Outgoing(g, m)
    ensures EdgesOf(env, h, m, calls)
  {
    ResolveEachKept(g, h, NotIgnored(env, calls));
  }

  /** Taking the head off the queue keeps the closure when lookup for the
      head finds a processed node. */
  lemma DequeueKeepsClosure(env: Env, st: BuildState, node: MethodPath, b: BuildState)
    requires Closure(env, st) && |st.methodQueue| > 0
    requires ResolvesTo(st.graph, st.methodQueue[0], node) && node in st.done
    requires b == st.(methodQueue := st.methodQueue[1..])
    ensures Closure(env, b)
  {
    DequeueKeepsTargets(st, node, b);
    ClosureOfParts(env, st, b);
  }

  lemma DequeueKeepsTargets(st: BuildState, node: MethodPath, b: BuildState)
    requires TargetsTracked(st) && |st.methodQueue| > 0
    requires ResolvesTo(st.graph, st.methodQueue[0], node) && node in st.done
    requires b.graph == st.graph && b.done == st.done && b.methodQueue == st.methodQueue[1..]
    ensures TargetsTracked(b)
  {
    forall i | 0 <= i < |b.graph.calls| ensures Tracked(b, b.graph.calls[i].to) {
      var t := st.graph.calls[i].to;
      assert Tracked(st, t);
      if t !in st.done {
        var q :| q in st.methodQueue && ResolvesTo(st.graph, q, t);
        DequeueKeeps(st.methodQueue, st.methodQueue, q);
      }
    }
  }

  /** Changing only the queues, and keeping every queued method queued,
      keeps the closure. */
  lemma QueueKeepsClosure(env: Env, st: BuildState, b: BuildState)
    requires Closure(env, st)
    requires b.graph == st.graph && b.done == st.done && b.pending == st.pending
    requires forall q | q in st.methodQueue :: q in b.methodQueue
    ensures Closure(env, b)
  {
    forall i | 0 <= i < |b.graph.calls| ensures Tracked(b, b.graph.calls[i].to) {
      assert Tracked(st, st.graph.calls[i].to);
    }
    ClosureOfParts(env, st, b);
  }

  lemma ClosureOfParts(env: Env, st: BuildState, b: BuildState)
    requires PendingInv(env, st) && SitesFromDone(st) && EdgesRecorded(env, st) && TargetsTracked(b)
    requires b.graph == st.graph && b.done == st.done && b.pending == st.pending
    ensures Closure(env, b)
  {
  }

  /** Processing the node lookup finds for the head of the queue keeps the
      closure: the node's sites are those of its recorded calls, and each
      target not yet processed has its callee queued. */
  lemma ProcessKeepsClosure(env: Env, st: BuildState, node: MethodPath, s: BuildState, b: BuildState)
    requires Closure(env, st) && Valid(st.graph)
    requires |st.methodQueue| > 0 && ResolvesTo(st.graph, st.methodQueue[0], node) && node !in st.done
    requires ProcessCalls(env, st, node) == Success(s)
    requires b == s.(methodQueue := s.methodQueue[1..])
    ensures Closure(env, b)
  {
    var callees := NotIgnored(env, st.pending[node]);
    var targets := ResolveEach(st.graph, callees).value;
    SameClassesValid(st.graph, b.graph);
    assert b.graph.calls == st.graph.calls + SitesTo(node, targets);
    assert s.methodQueue == st.methodQueue + Unprocessed(st.done + {node}, callees, targets);
    ProcessKeepsSitesFrom(st, node, targets, b);
    ProcessKeepsTargets(st, node, callees, targets, b);
    ProcessKeepsEdges(env, st, node, targets, b);
  }

  lemma ProcessKeepsSitesFrom(st: BuildState, node: MethodPath, targets: seq<MethodPath>, b: BuildState)
    requires SitesFromDone(st)
    requires b.graph.calls == st.graph.calls + SitesTo(node, targets) && b.done == st.done + {node}
    ensures SitesFromDone(b)
  {
    var g := st.graph;
    forall i | 0 <= i < |b.graph.calls| ensures b.graph.calls[i].from in b.done {
      if i < |g.calls| {
        assert b.graph.calls[i] == g.calls[i];
      } else {
        assert b.graph.calls[i] == SitesTo(node, targets)[i - |g.calls|];
      }
    }
  }

  lemma ProcessKeepsTargets(st: BuildState, node: MethodPath, callees: seq<MethodPath>, targets: seq<MethodPath>, b: BuildState)
    requires TargetsTracked(st) && Valid(st.graph) && Valid(b.graph) && Keeps(st.graph, b.graph)
    requires |st.methodQueue| > 0 && ResolvesTo(st.graph, st.methodQueue[0], node)
    requires ResolveEach(st.graph, callees) == Success(targets)
    requires b.graph.calls == st.graph.calls + SitesTo(node, targets) && b.done == st.done + {node}
    requires b.methodQueue == (st.methodQueue + Unprocessed(st.done + {node}, callees, targets))[1..]
    ensures TargetsTracked(b)
  {
    forall i | 0 <= i < |st.graph.calls| ensures Tracked(b, st.graph.calls[i].to) {
      OldTargetTracked(st, node, callees, targets, b, st.graph.calls[i].to);
    }
    forall k | 0 <= k < |targets| ensures Tracked(b, targets[k]) {
      NewTargetTracked(st, node, callees, targets, b, k);
    }
    TrackedJoin(b, st.graph.calls, node, targets);
  }

  lemma TrackedJoin(b: BuildState, log: seq<CallSite>, node: MethodPath, targets: seq<MethodPath>)
    requires b.graph.calls == log + SitesTo(node, targets)
    requires forall i | 0 <= i < |log| :: Tracked(b, log[i].to)
    requires forall k | 0 <= k < |targets| :: Tracked(b, targets[k])
    ensures TargetsTracked(b)
  {
    forall i | 0 <= i < |b.graph.calls| ensures Tracked(b, b.graph.calls[i].to) {
      if i < |log| {
        assert b.graph.calls[i] == log[i];
      } else {
        assert b.graph.calls[i] == CallSite(node, targets[i - |log|]);
      }
    }
  }

  /** A target tracked before processing `node` stays tracked. */
  lemma OldTargetTracked(st: BuildState, node: MethodPath, callees: seq<MethodPath>, targets: seq<MethodPath>, b: BuildState, t: MethodPath)
    requires Tracked(st, t) && Valid(st.graph) && Valid(b.graph) && Keeps(st.graph, b.graph)
    requires |st.methodQueue| > 0 && ResolvesTo(st.graph, st.methodQueue[0], node)
    requires |callees| == |targets| && b.done == st.done + {node}
    requires b.methodQueue == (st.methodQueue + Unprocessed(st.done + {node}, callees, targets))[1..]
    ensures Tracked(b, t)
  {
    if t !in b.done {
      var q :| q in st.methodQueue && ResolvesTo(st.graph, q, t);
      DequeueKeeps(st.methodQueue, st.methodQueue + Unprocessed(st.done + {node}, callees, targets), q);
      ResolveKept(st.graph, b.graph, q);
      assert ResolvesTo(b.graph, q, t);
    }
  }

  /** The `k`th target of `node`'s calls is tracked once `node` is processed. */
  lemma NewTargetTracked(st: BuildState, node: MethodPath, callees: seq<MethodPath>, targets: seq<MethodPath>, b: BuildState, k: nat)
    requires Valid(st.graph) && Valid(b.graph) && Keeps(st.graph, b.graph) && |st.methodQueue| > 0
    requires ResolveEach(st.graph, callees) == Success(targets) && k < |targets|
    requires b.done == st.done + {node}
    requires b.methodQueue == (st.methodQueue + Unprocessed(st.done + {node}, callees, targets))[1..]
    ensures Tracked(b, targets[k])
  {
    if targets[k] !in b.done {
      var c := callees[k];
      assert c in Unprocessed(st.done + {node}, callees, targets);
      AppendedQueued(st.methodQueue, Unprocessed(st.done + {node}, callees, targets), c);
      ResolveKept(st.graph, b.graph, c);
      assert ResolvesTo(b.graph, c, targets[k]);
    }
  }

  /** A method appended to a non-empty queue is still there once the head is
      taken off. */
  lemma AppendedQueued(q: seq<MethodPath>, u: seq<MethodPath>, c: MethodPath)
    requires |q| > 0 && c in u
    ensures c in (q + u)[1..]
  {
    var j :| 0 <= j < |u| && u[j] == c;
    assert (q + u)[1..][|q| - 1 + j] == c;
  }

  lemma ProcessKeepsEdges(env: Env, st: BuildState, node: MethodPath, targets: seq<MethodPath>, b: BuildState)
    requires PendingInv(env, st) && SitesFromDone(st) && EdgesRecorded(env, st)
    requires Valid(st.graph) && Valid(b.graph) && Keeps(st.graph, b.graph)
    requires node in st.pending && node !in st.done && b.done == st.done + {node}
    requires ResolveEach(st.graph, NotIgnored(env, st.pending[node])) == Success(targets)
    requires Outgoing(b.graph, node) == Outgoing(st.graph, node) + SitesTo(node, targets)
    requires forall x | x != node :: Outgoing(b.graph, x) == Outgoing(st.graph, x)
    ensures EdgesRecorded(env, b)
  {
    NodeEdges(env, st, node, targets, b);
    EdgesKeptExcept(env, st.graph, b.graph, st.done, node);
    EdgesRecordedJoin(env, b, st.done, node, st.pending[node]);
  }

  lemma EdgesRecordedJoin(env: Env, b: BuildState, done: set<MethodPath>, node: MethodPath, calls: seq<MethodPath>)
    requires b.done == done + {node}
    requires EdgesOf(env, b.graph, node, calls)
    requires forall m | m in done :: exists calls :: EdgesOf(env, b.graph, m, calls)
    ensures EdgesRecorded(env, b)
  {
  }

  /** Adding classes, and call sites leaving only `node`, keeps the edges of
      every processed method other than `node`. */
  lemma EdgesKeptExcept(env: Env, g: Graph, h: Graph, done: set<MethodPath>, node: MethodPath)
    requires Valid(h) && Keeps(g, h) && node !in done
    requires forall m | m in done :: exists calls :: EdgesOf(env, g, m, calls)
    requires forall x | x != node :: Outgoing(h, x) == Outgoing(g, x)
    ensures forall m | m in done :: exists calls :: EdgesOf(env, h, m, calls)
  {
    forall m | m in done ensures exists calls :: EdgesOf(env, h, m, calls) {
      var calls :| EdgesOf(env, g, m, calls);
      EdgesKept(env, g, h, m, calls);
    }
  }

  /** Once processed, `node`'s edges are those of its recorded calls. */
  lemma NodeEdges(env: Env, st: BuildState, node: MethodPath, targets: seq<MethodPath>, b: BuildState)
    requires PendingInv(env, st) && SitesFromDone(st)
    requires Valid(st.graph) && Valid(b.graph) && Keeps(st.graph, b.graph)
    requires node in st.pending && node !in st.done
    requires ResolveEach(st.graph, NotIgnored(env, st.pending[node])) == Success(targets)
    requires Outgoing(b.graph, node) == Outgoing(st.graph, node) + SitesTo(node, targets)
    ensures EdgesOf(env, b.graph, node, st.pending[node])
  {
    OutgoingNone(st.graph.calls, node);
    ResolveEachKept(st.graph, b.graph, NotIgnored(env, st.pending[node]));
  }

  /** One turn of the loop keeps the closure. */
  lemma StepKeepsClosure(env: Env, st: BuildState)
    requires DecoderAcyclic(env) && LoopInv(env, st) && Closure(env, st)
    requires |st.classQueue| > 0 || |st.methodQueue| > 0
    requires Step(env, st).Success?
    ensures Closure(env, Step(env, st).value)
  {
    if |st.classQueue| > 0 {
      ClassStepKeepsClosure(env, st);
    } else {
      GraphInvValid(env, st.graph);
      MethodStepKeepsClosure(env, st);
    }
  }

  lemma ClassStepKeepsClosure(env: Env, st: BuildState)
    requires DecoderAcyclic(env) && LoopInv(env, st) && Closure(env, st) && |st.classQueue| > 0
    requires WorkClassQueue(env, st).Success?
    ensures Closure(env, WorkClassQueue(env, st).value)
  {
    var st1 := st.(classQueue := st.classQueue[1..]);
    var b := WorkClassQueue(env, st).value;
    assert Extends(env, st1, b, Measure(env, st.classQueue[0]) + 1, {});
    GraphInvValid(env, st.graph);
    GraphInvValid(env, b.graph);
    QueueKeepsClosure(env, st, st1);
    ClosureKeptByGrowth(env, st1, b);
  }

  lemma MethodStepKeepsClosure(env: Env, st: BuildState)
    requires DecoderAcyclic(env) && LoopInv(env, st) && Closure(env, st) && Valid(st.graph)
    requires |st.classQueue| == 0 && |st.methodQueue| > 0
    requires Step(env, st).Success?
    ensures Closure(env, Step(env, st).value)
  {
    var m := st.methodQueue[0];
    var p := TryProcessMethod(env, st, m).value;
    var b := Step(env, st).value;
    assert b == if p.1 then p.0.(methodQueue := p.0.methodQueue[1..]) else p.0;
    if !HasClass(st.graph, m.owner) {
      QueueKeepsClosure(env, st, b);
    } else {
      var node := GetMethod(st.graph, m.owner, KeyOf(m)).value;
      assert ResolvesTo(st.graph, m, node);
      assert TryProcessNode(env, st, node) == Success(p);
      if node in st.done {
        DequeueKeepsClosure(env, st, node, b);
      } else if p.1 {
        var s := ProcessCalls(env, st, node).value;
        assert p.0 == s;
        ProcessKeepsClosure(env, st, node, s, b);
      } else {
        QueueKeepsClosure(env, st, b);
      }
    }
  }

  /** Before anything is built the closure holds trivially. */
  lemma InitialClosure(env: Env)
    requires DecoderAcyclic(env)
    ensures LoopInv(env, Initial) && Closure(env, Initial)
  {
  }

  // ---------------------------------------------------------------------------
  // Roots

  /** The methods of `ms` whose name and descriptor the root's patterns
      match, in order. */
  function Matching(root: Root, ms: seq<MethodPath>): (r: seq<MethodPath>)
    ensures |r| <= |ms|
    ensures forall p :: p in r <==> p in ms && MatchesMethod(root, p.name, p.desc)
  {
    if |ms| == 0 then []
    else
      var rest := Matching(root, ms[1..]);
      assert forall p :: p in ms <==> p == ms[0] || p in ms[1..];
      if MatchesMethod(root, ms[0].name, ms[0].desc) then [ms[0]] + rest else rest
  }

  /** Filtering keeps order: the matches of a concatenation are the
      matches of its first part followed by those of its second. */
  lemma {:induction false} MatchingAppend(root: Root, ms: seq<MethodPath>, ns: seq<MethodPath>)
    ensures Matching(root, ms + ns) == Matching(root, ms) + Matching(root, ns)
    decreases |ms|
  {
    if |ms| > 0 {
      assert (ms + ns)[1..] == ms[1..] + ns;
      MatchingAppend(root, ms[1..], ns);
    } else {
      assert ms + ns == ns;
    }
  }

  /** `enqueueMethodsInRoot`: every method of the root class, inherited ones
      included, whose name and descriptor match, in the order of the
      inherited-method list (which `MatchingAppend` shows `Matching` keeps). */
  function EnqueueRoot(st: BuildState, root: Root): (r: Result<BuildState, BuildError>)
    requires Valid(st.graph)
    ensures !HasClass(st.graph, root.className) ==> r == Failure(GraphFailure(NoSuchClass(root.className)))
    ensures r.Success? <==> HasClass(st.graph, root.className) && Hierarchy(st.graph, root.className).Success?
    ensures r.Success? ==> r.value == st.(methodQueue := r.value.methodQueue)
    ensures r.Success? ==>
      && |r.value.methodQueue| >= |st.methodQueue|
      && r.value.methodQueue[..|st.methodQueue|] == st.methodQueue
      && forall p :: p in r.value.methodQueue[|st.methodQueue|..] <==>
           && p.owner in Hierarchy(st.graph, root.className).value
           && KeyOf(p) in st.graph.classes[p.owner].methods
           && MatchesMethod(root, p.name, p.desc)
    ensures r.Success? ==>
      r.value.methodQueue[|st.methodQueue|..] == Matching(root, MethodsIncludingInherited(st.graph, root.className).value)
  {
    var _ :- Lift(GetClass(st.graph, root.className));
    var ms :- Lift(MethodsIncludingInherited(st.graph, root.className));
    var q := st.methodQueue + Matching(root, ms);
    assert q[|st.methodQueue|..] == Matching(root, ms);
    Success(st.(methodQueue := q))
  }

  /** Discovery of the root class keeps the loop invariant and loses
      nothing. */
  lemma DiscoveryKeepsLoopInv(env: Env, st: BuildState, st1: BuildState, bound: nat)
    requires DecoderAcyclic(env) && LoopInv(env, st) && Extends(env, st, st1, bound, {})
    ensures LoopInv(env, st1) && Grows(st, st1)
  {
    assert Grows(st, st1);
    GrowsKeepsMethods(st, st1);
  }

  /** Queuing the root's methods keeps the loop invariant: they belong to
      classes of the graph, which are never ignored. */
  lemma EnqueueKeepsLoopInv(env: Env, st: BuildState, root: Root)
    requires DecoderAcyclic(env) && LoopInv(env, st) && Valid(st.graph)
    requires EnqueueRoot(st, root).Success?
    ensures LoopInv(env, EnqueueRoot(st, root).value) && Grows(st, EnqueueRoot(st, root).value)
  {
    var b := EnqueueRoot(st, root).value;
    var n := |st.methodQueue|;
    forall i | 0 <= i < |b.methodQueue| ensures !ShouldIgnoreClass(env, b.methodQueue[i].owner) {
      if i >= n {
        assert b.methodQueue[i] in b.methodQueue[n..];
      } else {
        assert b.methodQueue[i] == st.methodQueue[i];
      }
    }
  }

  /** The root class is discovered unless it is already in the graph or
      ignored. A root class that cannot be found is reported as such; one
      missing deeper inside discovery passes through still wrapped. */
  method DiscoverRoot(env: Env, st: BuildState, c: string) returns (r: Result<BuildState, BuildError>)
    requires DecoderAcyclic(env) && LoopInv(env, st)
    ensures !ClassNotYetDiscovered(env, st.graph, c) ==> r == Success(st)
    ensures r.Success? ==> LoopInv(env, r.value) && Grows(st, r.value)
    ensures r.Success? ==> r.value.classQueue == st.classQueue && r.value.methodQueue == st.methodQueue
    ensures r.Success? && Closure(env, st) ==> Closure(env, r.value)
    ensures r.Failure? && r.error.RootClassNotFound? ==> r.error.name == c && c !in env.decoder
  {
    if !ClassNotYetDiscovered(env, st.graph, c) {
      return Success(st);
    }
    var d := Discover(env, st, c);
    if d.Failure? {
      return Failure(if d.error.ClassNotFound? then RootClassNotFound(c) else d.error);
    }
    DiscoveryKeepsLoopInv(env, st, d.value.0, Measure(env, c) + 1);
    if Closure(env, st) {
      GraphInvValid(env, st.graph);
      GraphInvValid(env, d.value.0.graph);
      ClosureKeptByGrowth(env, st, d.value.0);
    }
    return Success(d.value.0);
  }

  /** The root class's own matching methods are among those queued. */
  lemma RootMethodsQueued(st: BuildState, root: Root)
    requires Valid(st.graph) && EnqueueRoot(st, root).Success?
    ensures var c := root.className;
            forall k | k in st.graph.classes[c].methods && MatchesMethod(root, k.name, k.desc) ::
              PathOf(c, k) in EnqueueRoot(st, root).value.methodQueue && PathOf(c, k) in MethodsOf(st.graph)
  {
    var e := EnqueueRoot(st, root).value;
    var g := st.graph;
    var c := root.className;
    assert Hierarchy(g, c).value[0] == c;
    forall k | k in g.classes[c].methods && MatchesMethod(root, k.name, k.desc)
      ensures PathOf(c, k) in e.methodQueue && PathOf(c, k) in MethodsOf(g)
    {
      assert PathOf(c, k) in e.methodQueue[|st.methodQueue|..];
    }
  }

  /** Every method of the root class's hierarchy that matches the root is
      queued. */
  ghost predicate RootQueued(st: BuildState, root: Root) {
    && Valid(st.graph)
    && HasClass(st.graph, root.className)
    && MethodsIncludingInherited(st.graph, root.className).Success?
    && forall p | p in MethodsIncludingInherited(st.graph, root.className).value && MatchesMethod(root, p.name, p.desc) ::
         p in st.methodQueue && p in MethodsOf(st.graph)
  }

  /** Every method of the root class's hierarchy that matches the root is
      processed. */
  ghost predicate RootDone(st: BuildState, root: Root) {
    && Valid(st.graph)
    && HasClass(st.graph, root.className)
    && MethodsIncludingInherited(st.graph, root.className).Success?
    && forall p | p in MethodsIncludingInherited(st.graph, root.className).value && MatchesMethod(root, p.name, p.desc) ::
         p in st.done
  }

  /** After `enqueueMethodsInRoot` every matching method of the hierarchy is
      queued. */
  lemma EnqueuedRootQueued(st: BuildState, root: Root)
    requires Valid(st.graph) && EnqueueRoot(st, root).Success?
    ensures RootQueued(EnqueueRoot(st, root).value, root)
  {
    var e := EnqueueRoot(st, root).value;
    var c := root.className;
    forall p | p in MethodsIncludingInherited(e.graph, c).value && MatchesMethod(root, p.name, p.desc)
      ensures p in e.methodQueue && p in MethodsOf(e.graph)
    {
      assert p in e.methodQueue[|st.methodQueue|..];
    }
  }

  /** Queued methods that the loop processes stay processed, and the graph
      only grows, so what was queued for the root ends processed. */
  lemma RootQueuedThenDone(cur: BuildState, fin: BuildState, root: Root)
    requires RootQueued(cur, root) && Valid(fin.graph) && Grows(cur, fin)
    requires forall p | p in cur.methodQueue && p in MethodsOf(cur.graph) :: p in fin.done
    ensures RootDone(fin, root)
  {
    MethodsIncludingInheritedKept(cur.graph, fin.graph, root.className);
  }

  /** Queuing more methods keeps the closure. */
  lemma EnqueueKeepsClosure(env: Env, st: BuildState, root: Root)
    requires Valid(st.graph) && EnqueueRoot(st, root).Success? && Closure(env, st)
    ensures Closure(env, EnqueueRoot(st, root).value)
  {
    var e := EnqueueRoot(st, root).value;
    forall q | q in st.methodQueue ensures q in e.methodQueue {
      var i :| 0 <= i < |st.methodQueue| && st.methodQueue[i] == q;
      assert e.methodQueue[i] == q;
    }
    QueueKeepsClosure(env, st, e);
  }

  /** `addRoot`: unless the ignore set holds the root's class, the class is
      discovered when it is not yet in the graph and its matching methods
      are queued; then the main loop runs. */
  method AddRoot(env: Env, st: BuildState, root: Root) returns (r: Result<BuildState, BuildError>)
    requires DecoderAcyclic(env) && LoopInv(env, st)
    ensures ContainsClass(env.ignore, root.className) && st.classQueue == [] && st.methodQueue == [] ==> r == Success(st)
    ensures r.Success? ==> r.value.classQueue == [] && r.value.methodQueue == []
    ensures r.Success? ==> LoopInv(env, r.value) && Grows(st, r.value)
    ensures r.Success? && !ContainsClass(env.ignore, root.className) ==>
      && HasClass(r.value.graph, root.className)
      && forall k | k in r.value.graph.classes[root.className].methods && MatchesMethod(root, k.name, k.desc) ::
           PathOf(root.className, k) in r.value.done
    ensures r.Success? && !ContainsClass(env.ignore, root.className) ==> RootDone(r.value, root)
    ensures r.Success? && Closure(env, st) ==> Closure(env, r.value) && Closed(env, r.value)
    ensures r.Failure? && r.error.RootClassNotFound? ==>
      r.error.name == root.className && root.className !in env.decoder
  {
    var cur := st;
    var c := root.className;
    if !ContainsClass(env.ignore, c) {
      var d := DiscoverRoot(env, cur, c);
      if d.Failure? {
        return d;
      }
      cur := d.value;
      GraphInvValid(env, cur.graph);
      var e := EnqueueRoot(cur, root);
      if e.Failure? {
        return Failure(e.error);
      }
      EnqueueKeepsLoopInv(env, cur, root);
      RootMethodsQueued(cur, root);
      EnqueuedRootQueued(cur, root);
      if Closure(env, cur) {
        EnqueueKeepsClosure(env, cur, root);
      }
      GrowsTrans(st, cur, e.value);
      cur := e.value;
    }
    r := MainLoop(env, cur);
    if r.Success? {
      GrowsTrans(st, cur, r.value);
      if !ContainsClass(env.ignore, c) {
        GraphInvValid(env, r.value.graph);
        RootQueuedThenDone(cur, r.value, root);
      }
    }
  }

  /** A root whose matching methods are all processed stays so as the
      builder goes on. */
  lemma RootDoneKept(a: BuildState, b: BuildState, root: Root)
    requires RootDone(a, root) && Valid(b.graph) && Grows(a, b)
    ensures RootDone(b, root)
  {
    MethodsIncludingInheritedKept(a.graph, b.graph, root.className);
  }

  /** Every root of the first `n` that is not ignored stays processed. */
  lemma RootsDoneKept(env: Env, a: BuildState, b: BuildState, roots: seq<Root>, n: nat)
    requires DecoderAcyclic(env) && n <= |roots| && LoopInv(env, b) && Grows(a, b)
    requires forall j | 0 <= j < n && !ContainsClass(env.ignore, roots[j].className) :: RootDone(a, roots[j])
    ensures forall j | 0 <= j < n && !ContainsClass(env.ignore, roots[j].className) :: RootDone(b, roots[j])
  {
    GraphInvValid(env, b.graph);
    forall j | 0 <= j < n && !ContainsClass(env.ignore, roots[j].className) ensures RootDone(b, roots[j]) {
      RootDoneKept(a, b, roots[j]);
    }
  }

  /** The builder's roots added one after another, as `Main` does: the
      first failure stops it; on success every root that is not ignored has
      all its matching methods processed, and a closed graph stays closed. */
  method AddRoots(env: Env, st: BuildState, roots: seq<Root>) returns (r: Result<BuildState, BuildError>)
    requires DecoderAcyclic(env) && LoopInv(env, st)
    ensures |roots| == 0 ==> r == Success(st)
    ensures r.Success? && |roots| > 0 ==> r.value.classQueue == [] && r.value.methodQueue == []
    ensures r.Success? ==> LoopInv(env, r.value) && Grows(st, r.value)
    ensures r.Success? ==> forall j | 0 <= j < |roots| && !ContainsClass(env.ignore, roots[j].className) ::
              RootDone(r.value, roots[j])
    ensures r.Success? && Closure(env, st) ==> Closure(env, r.value)
    ensures r.Success? && Closure(env, st) && |roots| > 0 ==> Closed(env, r.value)
    ensures r.Failure? && r.error.RootClassNotFound? ==>
      exists j | 0 <= j < |roots| :: r.error.name == roots[j].className && roots[j].className !in env.decoder
  {
    var cur := st;
    var i := 0;
    while i < |roots|
      invariant 0 <= i <= |roots|
      invariant LoopInv(env, cur) && Grows(st, cur)
      invariant i == 0 ==> cur == st
      invariant i > 0 ==> cur.methodQueue == [] && cur.classQueue == []
      invariant i > 0 && Closure(env, st) ==> Closed(env, cur)
      invariant forall j | 0 <= j < i && !ContainsClass(env.ignore, roots[j].className) :: RootDone(cur, roots[j])
      invariant Closure(env, st) ==> Closure(env, cur)
    {
      var next := AddRoot(env, cur, roots[i]);
      if next.Failure? {
        return Failure(next.error);
      }
      RootsDoneKept(env, cur, next.value, roots, i);
      GrowsTrans(st, cur, next.value);
      cur := next.value;
      i := i + 1;
    }
    return Success(cur);
  }

  /** `buildCallgraph`: a fresh builder given every root in turn. On success
      the call graph is closed: every call site leaves and reaches a processed
      method, each processed method has exactly the sites of its body's
      calls, and every matching method of each root that is not ignored is
      processed. */
  method BuildCallGraph(env: Env, roots: seq<Root>) returns (r: Result<BuildState, BuildError>)
    requires DecoderAcyclic(env)
    ensures r.Success? ==> LoopInv(env, r.value) && Closure(env, r.value)
    ensures r.Success? ==> r.value.classQueue == [] && r.value.methodQueue == [] && Closed(env, r.value)
    ensures r.Success? ==> forall j | 0 <= j < |roots| && !ContainsClass(env.ignore, roots[j].className) ::
              RootDone(r.value, roots[j])
    ensures r.Failure? && r.error.RootClassNotFound? ==>
      exists j | 0 <= j < |roots| :: r.error.name == roots[j].className && roots[j].className !in env.decoder
  {
    InitialClosure(env);
    r := AddRoots(env, Initial, roots);
    if r.Success? && |roots| == 0 {
      ClosedWhenIdle(env, Initial);
    }
  }
}
