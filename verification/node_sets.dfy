/** Membership sets over class names and method paths, used as ignore lists,
    safe and unsafe lists and floating-point whitelists. Every kind of set the
    tool builds is one constructor of `NodeSet`; `ContainsClass` and
    `ContainsMethod` are the two queries every set answers. */
module NodeSets {
  import opened JavaStrings
  import opened MethodPaths
  import opened Wildcards

  /** The explicit set: the names given to `addClass` and the paths given to
      `addMethod`. */
  datatype SimpleSet = SimpleSet(classes: set<string>, methods: set<MethodPath>)

  datatype NodeSet =
    | Empty
      /** Array classes, which can never be loaded. */
    | MinimalIgnore
    | Wildcard(matcher: seq<Token>)
    | Simple(simple: SimpleSet)
    | Union(left: NodeSet, right: NodeSet)
    | Complement(inner: NodeSet)

  predicate ContainsClass(ns: NodeSet, className: string)
  {
    match ns
    case Empty => false
    case MinimalIgnore => StartsWith(className, "[")
    case Wildcard(m) => TokMatches(m, className)
    case Simple(set_) => className in set_.classes
    case Union(a, b) => ContainsClass(a, className) || ContainsClass(b, className)
    case Complement(s) => !ContainsClass(s, className)
  }

  predicate ContainsMethod(ns: NodeSet, path: MethodPath)
  {
    match ns
    case Empty => false
    case MinimalIgnore => ContainsClass(MinimalIgnore, path.owner)
    case Wildcard(m) => TokMatches(m, path.owner) || TokMatches(m, path.owner + "::" + path.name)
    case Simple(set_) => path.owner in set_.classes || path in set_.methods
    case Union(a, b) => ContainsMethod(a, path) || ContainsMethod(b, path)
    case Complement(s) => !ContainsMethod(s, path)
  }

  /** The rule every set is meant to keep: a member class brings all of its
      methods with it. */
  ghost predicate ClassImpliesMethods(ns: NodeSet) {
    forall p: MethodPath :: ContainsClass(ns, p.owner) ==> ContainsMethod(ns, p)
  }

  // ---------------------------------------------------------------------------
  // Constructors

  /** `new WildcardNodeSet(pattern)`: the class query is the glob reading of
      the pattern, and a method is a member when its owner is, or when the
      pattern matches `owner::name` (the descriptor is never looked at). */
  function NewWildcard(pattern: string): (r: NodeSet)
    ensures forall c :: ContainsClass(r, c) <==> GlobMatches(Normalize(pattern), c)
    ensures forall p: MethodPath :: ContainsMethod(r, p)
              <==> ContainsClass(r, p.owner) || GlobMatches(Normalize(pattern), p.owner + "::" + p.name)
  {
    var r := Wildcard(Compile(pattern));
    assert forall c :: ContainsClass(r, c) <==> GlobMatches(Normalize(pattern), c) by {
      forall c ensures ContainsClass(r, c) <==> GlobMatches(Normalize(pattern), c) {
        CompileMatchesGlob(pattern, c);
      }
    }
    assert forall p: MethodPath :: ContainsMethod(r, p)
             <==> ContainsClass(r, p.owner) || GlobMatches(Normalize(pattern), p.owner + "::" + p.name) by {
      forall p: MethodPath
        ensures ContainsMethod(r, p)
            <==> ContainsClass(r, p.owner) || GlobMatches(Normalize(pattern), p.owner + "::" + p.name)
      {
        CompileMatchesGlob(pattern, p.owner + "::" + p.name);
      }
    }
    r
  }

  /** `NodeSets.union`: a member of either side. */
  function UnionOf(a: NodeSet, b: NodeSet): (r: NodeSet)
    ensures forall c :: ContainsClass(r, c) <==> ContainsClass(a, c) || ContainsClass(b, c)
    ensures forall p :: ContainsMethod(r, p) <==> ContainsMethod(a, p) || ContainsMethod(b, p)
  {
    Union(a, b)
  }

  /** `NodeSets.complement`: a member exactly when not a member of `s`. */
  function ComplementOf(s: NodeSet): (r: NodeSet)
    ensures forall c :: ContainsClass(r, c) <==> !ContainsClass(s, c)
    ensures forall p :: ContainsMethod(r, p) <==> !ContainsMethod(s, p)
  {
    Complement(s)
  }

  /** `SimpleNodeSet.addClass`: the name becomes a member class, and so do all
      of its methods; every earlier member stays. */
  function AddClass(s: SimpleSet, name: string): (r: SimpleSet)
    ensures forall c :: ContainsClass(Simple(r), c) <==> ContainsClass(Simple(s), c) || c == name
    ensures forall p :: ContainsMethod(Simple(s), p) ==> ContainsMethod(Simple(r), p)
    ensures forall p: MethodPath | p.owner == name :: ContainsMethod(Simple(r), p)
  {
    s.(classes := s.classes + {name})
  }

  /** `SimpleNodeSet.addMethod`: the path becomes a member and nothing else
      does; in particular its class does not. */
  function AddMethod(s: SimpleSet, m: MethodPath): (r: SimpleSet)
    ensures forall c :: ContainsClass(Simple(r), c) <==> ContainsClass(Simple(s), c)
    ensures forall p :: ContainsMethod(Simple(r), p) <==> ContainsMethod(Simple(s), p) || p == m
  {
    s.(methods := s.methods + {m})
  }

  // ---------------------------------------------------------------------------
  // The class-implies-methods rule

  /** The leaf sets all keep the rule. */
  lemma LeafSetsKeepRule(ns: NodeSet)
    requires ns.Empty? || ns.MinimalIgnore? || ns.Wildcard? || ns.Simple?
    ensures ClassImpliesMethods(ns)
  {
  }

  /** A union of two sets that keep the rule keeps it. */
  lemma UnionKeepsRule(a: NodeSet, b: NodeSet)
    requires ClassImpliesMethods(a) && ClassImpliesMethods(b)
    ensures ClassImpliesMethods(UnionOf(a, b))
  {
  }

  /** A complement need not keep the rule: complementing a set that holds a
      method but not its class gives a set holding the class but not the
      method. */
  lemma ComplementBreaksRule()
    ensures var m := MethodPath("A", "f", "()V");
            var s := Simple(SimpleSet({}, {m}));
            ClassImpliesMethods(s)
            && ContainsClass(ComplementOf(s), m.owner) && !ContainsMethod(ComplementOf(s), m)
  {
  }

  // ---------------------------------------------------------------------------
  // Algebra of the combinators

  lemma DoubleComplement(s: NodeSet, c: string, p: MethodPath)
    ensures ContainsClass(ComplementOf(ComplementOf(s)), c) <==> ContainsClass(s, c)
    ensures ContainsMethod(ComplementOf(ComplementOf(s)), p) <==> ContainsMethod(s, p)
  {
  }

  lemma UnionCommutative(a: NodeSet, b: NodeSet, c: string, p: MethodPath)
    ensures ContainsClass(UnionOf(a, b), c) <==> ContainsClass(UnionOf(b, a), c)
    ensures ContainsMethod(UnionOf(a, b), p) <==> ContainsMethod(UnionOf(b, a), p)
  {
  }

  lemma UnionAssociative(a: NodeSet, b: NodeSet, d: NodeSet, c: string, p: MethodPath)
    ensures ContainsClass(UnionOf(UnionOf(a, b), d), c) <==> ContainsClass(UnionOf(a, UnionOf(b, d)), c)
    ensures ContainsMethod(UnionOf(UnionOf(a, b), d), p) <==> ContainsMethod(UnionOf(a, UnionOf(b, d)), p)
  {
  }

  /** The empty set contains nothing and is a unit of union. */
  lemma EmptyIsUnionUnit(s: NodeSet, c: string, p: MethodPath)
    ensures !ContainsClass(Empty, c) && !ContainsMethod(Empty, p)
    ensures ContainsClass(UnionOf(Empty, s), c) <==> ContainsClass(s, c)
    ensures ContainsMethod(UnionOf(Empty, s), p) <==> ContainsMethod(s, p)
  {
  }

  // ---------------------------------------------------------------------------
  // Array classes

  /** The builder's `^\[+.$` test: one or more `[` and then exactly one
      character that is not a line terminator, e.g. `[I` or `[[D`. */
  predicate IsBasicArrayClass(name: string) {
    |name| >= 2
    && (forall i | 0 <= i < |name| - 1 :: name[i] == '[')
    && !IsLineTerminator(name[|name| - 1])
  }

  /** Every basic array class is in the minimal ignore set, and so is each of
      its methods; a name that does not start with `[` is not. */
  lemma MinimalIgnoreCoversArrays(name: string, p: MethodPath)
    ensures IsBasicArrayClass(name) ==> ContainsClass(MinimalIgnore, name)
    ensures ContainsMethod(MinimalIgnore, p) <==> StartsWith(p.owner, "[")
    ensures |name| > 0 && name[0] != '[' ==> !ContainsClass(MinimalIgnore, name)
  {
  }
}
