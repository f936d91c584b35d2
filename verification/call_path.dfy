/** `CallPath`: a witness chain of method nodes, `m1 -> m2 -> ... -> mn`, kept
    as a cons list whose last cell has a `null` tail. A method node is named
    by its path; the graph holds one node per path. */
module CallPaths {
  import opened Wrappers
  import opened MethodPaths
  import opened ShortNames

  /** One cell: the method node (`getMethod`) and the rest of the chain
      (`getNext`), `None` where the Java field is `null`. */
  datatype CallPath = CallPath(node: MethodPath, next: Option<CallPath>)

  /** The methods of the chain from this cell on, in order. */
  function Methods(cp: CallPath): (r: seq<MethodPath>)
    ensures |r| >= 1 && r[0] == cp.node
    ensures |r| == 1 <==> cp.next.None?
    decreases cp
  {
    match cp.next
    case None => [cp.node]
    case Some(n) => [cp.node] + Methods(n)
  }

  /** The methods of a possibly `null` chain. */
  function Elements(p: Option<CallPath>): (r: seq<MethodPath>)
    ensures p.None? <==> |r| == 0
  {
    match p
    case None => []
    case Some(cp) => Methods(cp)
  }

  /** A chain is determined by its methods. */
  lemma {:induction false} MethodsInjective(a: CallPath, b: CallPath)
    requires Methods(a) == Methods(b)
    ensures a == b
    decreases a
  {
    match a.next
    case None =>
    case Some(n) =>
      var m := b.next.value;
      assert Methods(n) == Methods(a)[1..] == Methods(b)[1..] == Methods(m);
      MethodsInjective(n, m);
  }

  // ---------------------------------------------------------------------------
  // Constructors

  /** `new CallPath(method)`: the chain of that method alone. */
  function Single(m: MethodPath): (r: CallPath)
    ensures Methods(r) == [m] && !HasNext(r)
  {
    CallPath(m, None)
  }

  /** `new CallPath(method, next)`: the method in front of `next`. */
  function Prepend(m: MethodPath, next: CallPath): (r: CallPath)
    ensures Methods(r) == [m] + Methods(next) && HasNext(r)
  {
    CallPath(m, Some(next))
  }

  /** `hasNext`: whether the tail is non-null. */
  predicate HasNext(cp: CallPath) {
    cp.next.Some?
  }

  /** `hasNext` holds exactly for chains of two methods or more. */
  lemma HasNextIffLonger(cp: CallPath)
    ensures HasNext(cp) <==> |Methods(cp)| > 1
  {
  }

  /** The loop of `make`: cells are consed from the last argument down to the
      first; `i` arguments remain. */
  function MakeLoop(ms: seq<MethodPath>, i: nat, acc: Option<CallPath>): (r: Option<CallPath>)
    requires i <= |ms|
    requires Elements(acc) == ms[i..]
    ensures Elements(r) == ms
  {
    if i == 0 then acc
    else
      var cp := CallPath(ms[i - 1], acc);
      assert Methods(cp) == [ms[i - 1]] + ms[i..] == ms[i - 1..];
      MakeLoop(ms, i - 1, Some(cp))
  }

  /** `CallPath.make(ms...)`: `null` for no arguments, otherwise the chain of
      the arguments in order. */
  function Make(ms: seq<MethodPath>): (r: Option<CallPath>)
    ensures r.None? <==> |ms| == 0
    ensures r.Some? ==> Methods(r.value) == ms
  {
    MakeLoop(ms, |ms|, None)
  }

  /** `make` rebuilds any chain from its methods. */
  lemma MakeOfMethods(cp: CallPath)
    ensures Make(Methods(cp)) == Some(cp)
  {
    MethodsInjective(Make(Methods(cp)).value, cp);
  }

  // ---------------------------------------------------------------------------
  // Iteration

  /** The iterator: the cell it stands on, `None` once past the end. */
  datatype Iterator = Iterator(p: Option<CallPath>)

  datatype IteratorError = UnsupportedOperation

  function IteratorOf(cp: CallPath): (it: Iterator)
    ensures Elements(it.p) == Methods(cp)
  {
    Iterator(Some(cp))
  }

  /** The iterator's `hasNext`: whether a cell remains. */
  predicate IterHasNext(it: Iterator) {
    it.p.Some?
  }

  /** The iterator's `next`: the current method, and the iterator moved on
      to the tail. */
  function IterNext(it: Iterator): (r: (MethodPath, Iterator))
    requires IterHasNext(it)
    ensures [r.0] + Elements(r.1.p) == Elements(it.p)
  {
    (it.p.value.node, Iterator(it.p.value.next))
  }

  /** The iterator's `remove` always throws. */
  function IterRemove(it: Iterator): (r: Result<Iterator, IteratorError>)
    ensures r == Failure(UnsupportedOperation)
  {
    Failure(UnsupportedOperation)
  }

  /** A for-each loop over the chain: yields exactly its methods, in order. */
  method Iterate(cp: CallPath) returns (ms: seq<MethodPath>)
    ensures ms == Methods(cp)
  {
    var it := IteratorOf(cp);
    ms := [];
    while IterHasNext(it)
      invariant ms + Elements(it.p) == Methods(cp)
      decreases |Elements(it.p)|
    {
      var step := IterNext(it);
      assert ms + [step.0] + Elements(step.1.p) == ms + ([step.0] + Elements(step.1.p));
      ms := ms + [step.0];
      it := step.1;
    }
  }

  /** What iterating `make(ms...)` yields is `ms`. */
  lemma IterateMake(ms: seq<MethodPath>)
    requires |ms| > 0
    ensures Make(ms).Some? && Methods(Make(ms).value) == ms
  {
  }

  // ---------------------------------------------------------------------------
  // equals and hashCode

  /** An argument of `equals(Object)`: a chain, `null`, or another object. */
  datatype Obj = PathValue(path: CallPath) | NullObj | OtherObj

  function AsObj(p: Option<CallPath>): Obj {
    match p
    case None => NullObj
    case Some(cp) => PathValue(cp)
  }

  /** `equals`: the same method, and either both tails `null` or this tail
      equal to the other tail. Method nodes compare by identity, that is by
      path. */
  function Equals(a: CallPath, o: Obj): (r: bool)
    ensures r <==> o.PathValue? && Methods(o.path) == Methods(a)
    decreases a
  {
    match o
    case PathValue(b) =>
      var tails := (a.next.None? && b.next.None?) || (a.next.Some? && Equals(a.next.value, AsObj(b.next)));
      assert tails <==> Elements(a.next) == Elements(b.next) by {
        if a.next.Some? && b.next.Some? && Methods(b.next.value) == Methods(a.next.value) {
          MethodsInjective(a.next.value, b.next.value);
        }
      }
      assert Methods(b) == [b.node] + Elements(b.next);
      assert Methods(a) == [a.node] + Elements(a.next);
      assert Methods(a) == Methods(b) ==> Methods(a)[1..] == Methods(b)[1..];
      a.node == b.node && tails
    case _ => false
  }

  /** `equals` is value equality. */
  lemma EqualsIsIdentity(a: CallPath, b: CallPath)
    ensures Equals(a, PathValue(b)) <==> a == b
  {
    if Methods(a) == Methods(b) { MethodsInjective(a, b); }
  }

  /** `hashCode`: the method node's hash shifted left by 1 for a last cell
      and by 2 otherwise, in 32-bit `int` arithmetic. The node's own hash is
      `Object.hashCode`, an identity hash, so it is a parameter. */
  function HashCode(cp: CallPath, nodeHash: MethodPath -> int): (h: int)
    ensures IsInt32(h)
    ensures h % 2 == 0
  {
    var shifted := ToInt32(nodeHash(cp.node)) * (if cp.next.None? then 2 else 4);
    ToInt32(shifted)
  }

  /** Equal chains hash alike. */
  lemma HashConsistentWithEquals(a: CallPath, b: CallPath, nodeHash: MethodPath -> int)
    requires Equals(a, PathValue(b))
    ensures HashCode(a, nodeHash) == HashCode(b, nodeHash)
  {
    EqualsIsIdentity(a, b);
  }

  /** The hash reads only the first method and whether a tail exists: all
      chains of two or more methods from one start collide. */
  lemma LongerChainsCollide(a: CallPath, b: CallPath, nodeHash: MethodPath -> int)
    requires a.node == b.node && |Methods(a)| > 1 && |Methods(b)| > 1
    ensures HashCode(a, nodeHash) == HashCode(b, nodeHash)
  {
  }

  // ---------------------------------------------------------------------------
  // toString

  /** `methodToString`: the short owner name, `::`, and the method name. */
  function MethodLabel(m: MethodPath): (r: Result<string, IndexError>)
    ensures r.Success? <==> ShortClassName(m.owner).Success?
  {
    var short :- ShortClassName(m.owner);
    Success(short + "::" + m.name)
  }

  /** The labels of `ms` joined by ` -> `; the rendering fails when some
      owner has no short name. */
  function Render(ms: seq<MethodPath>): (r: Result<string, IndexError>)
    requires |ms| > 0
  {
    match MethodLabel(ms[0])
    case Failure(e) => Failure(e)
    case Success(first) =>
      if |ms| == 1 then Success(first)
      else
        match Render(ms[1..])
        case Failure(e) => Failure(e)
        case Success(rest) => Success(first + " -> " + rest)
  }

  predicate AllLabelled(ms: seq<MethodPath>) {
    forall i | 0 <= i < |ms| :: MethodLabel(ms[i]).Success?
  }

  lemma AllLabelledCons(ms: seq<MethodPath>)
    requires |ms| > 0
    ensures AllLabelled(ms) <==> MethodLabel(ms[0]).Success? && AllLabelled(ms[1..])
  {
    var t := ms[1..];
    if AllLabelled(ms) {
      forall i | 0 <= i < |t| ensures MethodLabel(t[i]).Success? {
        assert t[i] == ms[i + 1];
      }
    }
    if MethodLabel(ms[0]).Success? && AllLabelled(t) {
      forall i | 0 <= i < |ms| ensures MethodLabel(ms[i]).Success? {
        if i > 0 { assert ms[i] == t[i - 1]; }
      }
    }
  }

  /** The rendering succeeds exactly when every owner has a short name. */
  lemma {:induction false} RenderSucceedsIff(ms: seq<MethodPath>)
    requires |ms| > 0
    ensures Render(ms).Success? <==> AllLabelled(ms)
    decreases |ms|
  {
    AllLabelledCons(ms);
    if |ms| > 1 {
      RenderSucceedsIff(ms[1..]);
    }
  }

  /** What the rest of the chain adds once `prefix` has been rendered and the
      methods `rest` remain. */
  function RenderAfter(prefix: string, rest: seq<MethodPath>): Result<string, IndexError> {
    if |rest| == 0 then Success(prefix)
    else
      match Render(rest)
      case Failure(e) => Failure(e)
      case Success(tail) => Success(prefix + " -> " + tail)
  }

  /** One turn of the loop of `toString`: a failing label stops it, any other
      is appended after an arrow. */
  lemma RenderAfterStep(prefix: string, rest: seq<MethodPath>)
    requires |rest| > 0
    ensures MethodLabel(rest[0]).Failure? ==> RenderAfter(prefix, rest) == Failure(MethodLabel(rest[0]).error)
    ensures MethodLabel(rest[0]).Success? ==>
              RenderAfter(prefix, rest) == RenderAfter(prefix + " -> " + MethodLabel(rest[0]).value, rest[1..])
  {
    var l := MethodLabel(rest[0]);
    if l.Failure? {
      assert Render(rest) == Failure(l.error);
    } else if |rest| == 1 {
      assert Render(rest) == Success(l.value);
      assert rest[1..] == [];
    } else {
      var tail := Render(rest[1..]);
      if tail.Failure? {
        assert Render(rest) == Failure(tail.error);
      } else {
        assert Render(rest) == Success(l.value + " -> " + tail.value);
        assert RenderAfter(prefix + " -> " + l.value, rest[1..]) == Success(prefix + " -> " + l.value + " -> " + tail.value);
        JoinAssoc(prefix, " -> ", l.value, tail.value);
      }
    }
  }

  lemma JoinAssoc(p: string, sep: string, a: string, b: string)
    ensures p + sep + (a + sep + b) == p + sep + a + sep + b
  {
  }

  /** `toString`: appends the first label, then ` -> ` and the next label
      for every further cell. */
  method ToString(cp: CallPath) returns (r: Result<string, IndexError>)
    ensures r == Render(Methods(cp))
  {
    var first := MethodLabel(cp.node);
    if first.Failure? {
      return Failure(first.error);
    }
    var sb := first.value;
    var p := cp.next;
    assert Methods(cp)[1..] == Elements(p);
    assert Render(Methods(cp)) == RenderAfter(sb, Elements(p));
    while p.Some?
      invariant Render(Methods(cp)) == RenderAfter(sb, Elements(p))
      decreases |Elements(p)|
    {
      var text := MethodLabel(p.value.node);
      RenderAfterStep(sb, Elements(p));
      if text.Failure? {
        return Failure(text.error);
      }
      sb := sb + " -> " + text.value;
      p := p.value.next;
    }
    r := Success(sb);
  }

  /** A chain of one method renders without an arrow; a longer one is the
      first label, an arrow, and the rendering of the tail. */
  lemma RenderPrepend(m: MethodPath, next: CallPath)
    requires MethodLabel(m).Success? && Render(Methods(next)).Success?
    ensures Render(Methods(Single(m))) == MethodLabel(m)
    ensures Render(Methods(Prepend(m, next))) == Success(MethodLabel(m).value + " -> " + Render(Methods(next)).value)
  {
    assert Methods(Prepend(m, next))[1..] == Methods(next);
  }
}
