/** A root of the call graph: a class name plus a pattern for method names and
    one for descriptors. Only the two patterns the constructors build are
    modelled: `.*`, and a quoted literal. */
module Roots {
  import opened JavaStrings
  import opened MethodPaths

  datatype Pattern =
      /** `Pattern.compile(".*")`. */
    | AcceptAll
      /** `Pattern.compile(Pattern.quote(text))`. */
    | Exact(text: string)

  /** `pattern.matcher(s).matches()`: the whole string must match. `.*` takes
      any string without a line terminator, since `.` refuses those; a quoted
      literal takes exactly itself. */
  predicate FullMatch(p: Pattern, s: string) {
    match p
    case AcceptAll => NoLineTerminator(s)
    case Exact(t) => s == t
  }

  datatype Root = Root(className: string, methodPattern: Pattern, descPattern: Pattern)

  /** `matchesMethod`: both patterns match. */
  predicate MatchesMethod(r: Root, name: string, desc: string) {
    FullMatch(r.methodPattern, name) && FullMatch(r.descPattern, desc)
  }

  /** `new Root(className)`: every method of the class. */
  function ForClass(className: string): (r: Root)
    ensures r.className == className
    ensures forall n, d :: MatchesMethod(r, n, d) <==> NoLineTerminator(n) && NoLineTerminator(d)
  {
    Root(className, AcceptAll, AcceptAll)
  }

  /** `new Root(Class)`: the binary name with `.` turned into `/`. */
  function ForJavaClass(binaryName: string): (r: Root)
    ensures |r.className| == |binaryName| && !ContainsChar(r.className, '.')
    ensures forall i | 0 <= i < |binaryName| && binaryName[i] != '.' :: r.className[i] == binaryName[i]
    ensures forall i | 0 <= i < |binaryName| && binaryName[i] == '.' :: r.className[i] == '/'
    ensures forall n, d :: MatchesMethod(r, n, d) <==> NoLineTerminator(n) && NoLineTerminator(d)
  {
    ForClass(ReplaceChar(binaryName, '.', '/'))
  }

  /** `new Root(className, methodName)`: that name with any descriptor. */
  function ForMethodName(className: string, methodName: string): (r: Root)
    ensures r.className == className
    ensures forall n, d :: MatchesMethod(r, n, d) <==> n == methodName && NoLineTerminator(d)
  {
    Root(className, Exact(methodName), AcceptAll)
  }

  /** `new Root(methodPath)`: exactly one (name, descriptor) pair of the
      owner class, whatever regex metacharacters they hold. */
  function ForMethodPath(p: MethodPath): (r: Root)
    ensures r.className == p.owner
    ensures forall n, d :: MatchesMethod(r, n, d) <==> n == p.name && d == p.desc
  {
    Root(p.owner, Exact(p.name), Exact(p.desc))
  }

  /** Narrowing a root never adds matches: a method-path root matches only
      what the method-name root matches, and that only what the class root
      matches, for names and descriptors without line terminators. */
  lemma RootsNarrow(p: MethodPath, n: string, d: string)
    requires NoLineTerminator(p.name) && NoLineTerminator(p.desc)
    ensures MatchesMethod(ForMethodPath(p), n, d) ==> MatchesMethod(ForMethodName(p.owner, p.name), n, d)
    ensures MatchesMethod(ForMethodName(p.owner, p.name), n, d) ==> MatchesMethod(ForClass(p.owner), n, d)
  {
  }
}
