# A model of the javaportability strictfp checker

javaportability checks that Java code computes floating-point results the same
way on every JVM. A method that does floating-point arithmetic outside
`strictfp` may round differently from one machine to the next. The tool loads
classes from a class path and builds a call graph from a set of root methods.
It then reports, for every root method, a chain of calls that ends at such a
method. Configuration files and command-line flags say which classes to
ignore, which methods to assume safe or unsafe, and which methods may do
floating-point arithmetic anyway.

This project models the tool's core in Dafny and proves properties of the
model:

- `MethodPaths` (method_path.dfy): the identity of a method (owner, name,
  descriptor), with its equality, hash code, rendering and ordering.
- `JavaStrings` (java_strings.dfy) and `ShortNames` (misc.dfy): the string
  operations the core relies on, written out the way the Java library
  behaves. `String.split` drops trailing empty strings; `String.trim` removes
  characters up to U+0020; `String.compareTo` compares lexicographically.
  `ShortNames` holds `Misc.shortClassName`.
- `Wildcards` (wildcard.dfy): the regular expression a `WildcardNodeSet`
  compiles, as a token list. It is proved equivalent to a plain glob over
  the pattern with `.` read as `/`.
- `NodeSets` (node_sets.dfy): the node sets (empty, minimal ignore, simple,
  wildcard, union, complement) as one datatype with its two queries.
- `Roots` (roots.dfy): the constructors of `Root` and its method matcher.
- `CallGraphs` (call_graph.dfy): the call graph. Classes are stored by name;
  call sites go into one append-only log, so each method's outgoing and
  incoming lists are filters of the log. This module also holds the class
  hierarchy, method lookup and the methods including inherited ones.
- `Builder` (builder.dfy), `Bytecode` (bytecode.dfy) and `BuildLoop`
  (build_loop.dfy): the `CallGraphBuilder`. The class loader is a map from
  class name to decoded class, and a missing name is `ClassNotFoundException`.
  The recursive discovery of superclasses and interfaces is modelled here,
  and so are the method visitor, the class and method work queues, the main
  loop and `addRoot`.
- `CallPaths` (call_path.dfy): the linked `CallPath` with its iterator,
  equality, hash code and rendering.
- `Analyzer` (analyzer.dfy): the strictfp safety analyser's memoised
  depth-first walk. `Completion` (completion.dfy) is the corrected analysis
  of all roots (see Findings).
- `ConfigLines` (config.dfy): the configuration-file line processor.
- `Arguments` (arg_parser.dfy): the argument parser.
- `Usage` (usage.dfy) holds the user-facing errors. `Wrappers`
  (wrappers.dfy) holds `Option` and `Result`.
- `CallGraphFacts` and `AnalyzerExamples` work small graphs from the tests
  through the model.

Exceptions become `Failure` values whose constructor names the exception.

An ignored interface is modelled as the source has it: `getDependency`
returns `null`, and that `null` is added as an interface link.
`CallGraphFacts.NullInterfaceBreaksHierarchy` shows that any such link makes
the hierarchy of the class fail, where the Java code throws a
`NullPointerException`.

## Model

| member | source | states |
|---|---|---|
| MethodPaths.Equals | src/main/java/org/javaportability/misc/MethodPath.java:32-41 | two method paths are equal exactly when owner, name and descriptor all agree; nothing that is not a method path is equal to one |
| MethodPaths.StringHashIsPolynomialMod32 | src/main/java/org/javaportability/misc/MethodPath.java:43-46 | `String.hashCode`, folded with 32-bit wrap-around at each step over the string's UTF-16 code units, is a 32-bit value congruent to the polynomial sum of those code units with base 31 modulo 2^32 |
| MethodPaths.ComputeStringHash | src/main/java/org/javaportability/misc/MethodPath.java:43-46 | the loop computing `String.hashCode` over the UTF-16 code units yields the recursive definition and stays within 32 bits |
| MethodPaths.StringHashOfSurrogatePair | src/main/java/org/javaportability/misc/MethodPath.java:43-46 | a character outside the Basic Multilingual Plane is hashed as its two surrogate code units: U+1F600 hashes to 31 * 0xD83D + 0xDE00 |
| MethodPaths.HashCode | src/main/java/org/javaportability/misc/MethodPath.java:43-46 | the hash of a method path is a 32-bit integer |
| MethodPaths.HashConsistentWithEquals | src/main/java/org/javaportability/misc/MethodPath.java:32-46 | equal method paths have equal hash codes |
| MethodPaths.OverloadsCollide | src/main/java/org/javaportability/misc/MethodPath.java:43-46 | overloads and same-named methods of different classes share a hash code, because only the name is hashed |
| MethodPaths.ToString | src/main/java/org/javaportability/misc/MethodPath.java:48-51 | the rendering starts with the owner, ends with the descriptor and adds exactly five separator characters |
| MethodPaths.RenderingInjective | src/main/java/org/javaportability/misc/MethodPath.java:48-51 | when owners and names have no spaces, two paths that render the same are the same path |
| MethodPaths.CompareTo | src/main/java/org/javaportability/misc/MethodPath.java:53-56 | the comparison is zero exactly when the renderings agree, and equal paths compare as zero |
| MethodPaths.CompareToAntisymmetric | src/main/java/org/javaportability/misc/MethodPath.java:53-56 | comparing in the other order negates the result |
| MethodPaths.CompareToTransitive | src/main/java/org/javaportability/misc/MethodPath.java:53-56 | the ordering is transitive |
| MethodPaths.CompareToInconsistentWithEquals | src/main/java/org/javaportability/misc/MethodPath.java:32-56 | a name containing a space lets two different paths compare as zero although they are not equal |
| MethodPaths.CompareToConsistentWithoutSpaces | src/main/java/org/javaportability/misc/MethodPath.java:32-56 | without spaces in owners and names, comparing as zero is the same as being equal |
| JavaStrings.ReplaceChar | src/main/java/org/javaportability/callgraph/nodeset/WildcardNodeSet.java:11 | `String.replace(char, char)` keeps the length and substitutes exactly the matching characters |
| JavaStrings.RawSplitPiecesSepFree | src/main/java/org/javaportability/callgraph/nodeset/WildcardNodeSet.java:11 | no piece of a split contains a separator |
| JavaStrings.RawSplitJoin | src/main/java/org/javaportability/callgraph/nodeset/WildcardNodeSet.java:11 | joining the pieces of a split with the separator gives the string back |
| JavaStrings.JoinRawSplit | src/main/java/org/javaportability/app/ArgParser.java:107 | splitting the join of separator-free pieces gives the pieces back |
| JavaStrings.RawSplitPrefix | src/main/java/org/javaportability/app/ArgParser.java:107 | a separator-free prefix followed by a separator is the first piece of the split |
| JavaStrings.RawSplitSingleton | src/main/java/org/javaportability/callgraph/nodeset/WildcardNodeSet.java:11 | a split has one piece exactly when the string has no separator, and that piece is the string |
| JavaStrings.DropTrailingEmpty | src/main/java/org/javaportability/callgraph/nodeset/WildcardNodeSet.java:11 | the result is the longest prefix of the pieces that does not end with an empty piece; only empty pieces are dropped |
| JavaStrings.JavaSplitFacts | src/main/java/org/javaportability/callgraph/nodeset/WildcardNodeSet.java:11 | `String.split` returns separator-free pieces forming a prefix of the raw split: the string itself when no separator occurs, otherwise the raw split without trailing empty pieces |
| JavaStrings.Trim | src/main/java/org/javaportability/app/ConfigFileLoader.java:66 | the result neither starts nor ends with a character up to U+0020, is empty exactly when the input has only such characters, and is the input with a run of such characters removed at each end |
| JavaStrings.TrimUnique | src/main/java/org/javaportability/app/ConfigFileLoader.java:66 | whatever stands between two runs of characters up to U+0020 and neither starts nor ends with one is what `trim` returns, so the result is fixed by its frame |
| JavaStrings.Utf16 | src/main/java/org/javaportability/misc/MethodPath.java:43-46 | a character is one code unit below U+10000 and otherwise a high surrogate followed by a low surrogate, and decoding the units gives the character back |
| JavaStrings.CodeUnitsInjective | src/main/java/org/javaportability/misc/MethodPath.java:43-56 | different strings have different UTF-16 code-unit sequences |
| JavaStrings.CompareStringsZeroIffEqual | src/main/java/org/javaportability/misc/MethodPath.java:55 | `String.compareTo`, taken over UTF-16 code units, is zero exactly for equal strings |
| JavaStrings.CompareStringsAntisymmetric | src/main/java/org/javaportability/misc/MethodPath.java:55 | `String.compareTo` in the other order negates the result |
| JavaStrings.CompareStringsTransitive | src/main/java/org/javaportability/misc/MethodPath.java:55 | `String.compareTo` is transitive |
| JavaStrings.CompareStringsByCodeUnit | src/main/java/org/javaportability/misc/MethodPath.java:55 | the comparison is by code unit, not by character: U+FFFF sorts after U+10000, whose first code unit is 0xD800 |
| ShortNames.ShortClassName | src/main/java/org/javaportability/misc/Misc.java:10-13 | the short name is the last segment after stripping trailing separators; a name made only of separators fails with `ArrayIndexOutOfBoundsException` at index -1 |
| ShortNames.ShortClassNameShape | src/main/java/org/javaportability/misc/Misc.java:10-13 | a short name contains no separator and ends the stripped name; a name without separators is its own short name |
| ShortNames.JavaSplitLast | src/main/java/org/javaportability/misc/Misc.java:11-12 | the split is empty exactly when a non-empty name has only separators; otherwise its last piece is the last segment of the stripped name |
| ShortNames.ShortNameAfterSep | src/main/java/org/javaportability/misc/Misc.java:10-13 | whatever follows the last separator of a name is its short name |
| ShortNames.ShortClassNameOfObject | src/main/java/org/javaportability/misc/Misc.java:10-13 | `java/lang/Object` and `java.lang.Object` both shorten to `Object` |
| ShortNames.ShortClassNameTrailingSeparator | src/main/java/org/javaportability/misc/Misc.java:10-13 | `a/b/` shortens to `b`, and `//` fails |
| Wildcards.Normalize | src/main/java/org/javaportability/callgraph/nodeset/WildcardNodeSet.java:11 | dots become slashes: same length, no dot left, stars exactly where the pattern had them |
| Wildcards.Compile | src/main/java/org/javaportability/callgraph/nodeset/WildcardNodeSet.java:10-28 | the compiled regex contains no literal star |
| Wildcards.RenderSound | src/main/java/org/javaportability/callgraph/nodeset/WildcardNodeSet.java:12-21 | a token list matches a string exactly when the glob it renders to matches it |
| Wildcards.GlobLitPrefix | src/main/java/org/javaportability/callgraph/nodeset/WildcardNodeSet.java:15 | a star-free literal in front of a glob must be a prefix of the string, and the rest must match the glob |
| Wildcards.CollapseTrailingStars | src/main/java/org/javaportability/callgraph/nodeset/WildcardNodeSet.java:23-24 | several trailing stars match the same strings as one |
| Wildcards.CompileMatchesGlob | src/main/java/org/javaportability/callgraph/nodeset/WildcardNodeSet.java:10-41 | a wildcard node set's pattern matches a string exactly when the normalised pattern, read as a glob, matches it |
| Wildcards.StarMatchesTerminatorFree | src/main/java/org/javaportability/callgraph/nodeset/WildcardNodeSet.java:12-21 | `*` matches exactly the strings without a line terminator, since the regex `.` does not match one |
| Wildcards.NoStarMatchesExactly | src/test/java/org/javaportability/callgraph/nodeset/WildcardNodeSetTest.java:29-33 | a pattern without a star matches only its normalised self |
| Wildcards.TrailingStarMatchesPrefix | src/test/java/org/javaportability/callgraph/nodeset/WildcardNodeSetTest.java:9-18 | a pattern ending in its only star matches exactly the strings that start with its normalised prefix and continue without a line terminator |
| Wildcards.SurroundingStarsMatchInfix | src/test/java/org/javaportability/callgraph/nodeset/WildcardNodeSetTest.java:25-26 | `*x*` matches exactly the strings containing the normalised x with no line terminator before or after it |
| Wildcards.PackageWildcardExample | src/test/java/org/javaportability/callgraph/nodeset/WildcardNodeSetTest.java:12-16 | `java.lang.*` matches `java/lang/Object` and not `java/util/List` |
| Wildcards.PrefixWildcardExample | src/test/java/org/javaportability/callgraph/nodeset/WildcardNodeSetTest.java:13-17 | `java.lang*` matches `java/lang/Object` and not `java/util/List` |
| Wildcards.ExactNameExample | src/test/java/org/javaportability/callgraph/nodeset/WildcardNodeSetTest.java:29-33 | `java.lang.Object` matches `java/lang/Object`; `java.lang.String` does not |
| Wildcards.InfixWildcardExample | src/test/java/org/javaportability/callgraph/nodeset/WildcardNodeSetTest.java:25-26 | `*lang*` matches `java/lang/Object` and not `java/util/List` |
| NodeSets.NewWildcard | src/main/java/org/javaportability/callgraph/nodeset/WildcardNodeSet.java:30-38 | a wildcard set holds the classes its glob matches, and the methods whose class it holds or whose `owner::name` it matches |
| NodeSets.UnionOf | src/main/java/org/javaportability/callgraph/nodeset/NodeSets.java:20-32 | a union holds a class or method exactly when either operand does |
| NodeSets.ComplementOf | src/main/java/org/javaportability/callgraph/nodeset/NodeSets.java:6-18 | a complement holds a class or method exactly when the operand does not |
| NodeSets.AddClass | src/main/java/org/portablejava/callgraph/nodeset/SimpleNodeSet.java:18-20 | adding a class adds that class and no other, keeps every method, and puts every method of that class in the set |
| NodeSets.AddMethod | src/main/java/org/portablejava/callgraph/nodeset/SimpleNodeSet.java:26-28 | adding a method leaves the classes alone and adds exactly that method |
| NodeSets.LeafSetsKeepRule | src/main/java/org/portablejava/callgraph/nodeset/SimpleNodeSet.java:30-42 | the empty, minimal, wildcard and simple sets hold every method of every class they hold |
| NodeSets.UnionKeepsRule | src/main/java/org/javaportability/callgraph/nodeset/NodeSets.java:20-32 | a union of sets that hold every method of their classes does too |
| NodeSets.ComplementBreaksRule | src/main/java/org/javaportability/callgraph/nodeset/NodeSets.java:6-18 | a complement can hold a class without holding its methods |
| NodeSets.DoubleComplement | src/main/java/org/javaportability/callgraph/nodeset/NodeSets.java:6-18 | complementing twice changes no answer |
| NodeSets.UnionCommutative | src/main/java/org/javaportability/callgraph/nodeset/NodeSets.java:20-32 | the order of union operands changes no answer |
| NodeSets.UnionAssociative | src/main/java/org/javaportability/callgraph/nodeset/NodeSets.java:20-32 | the grouping of unions changes no answer |
| NodeSets.EmptyIsUnionUnit | src/main/java/org/javaportability/callgraph/nodeset/EmptyNodeSet.java:10-18 | the empty set holds nothing and is a unit of union |
| NodeSets.MinimalIgnoreCoversArrays | src/main/java/org/javaportability/callgraph/nodeset/MinimalIgnoreSet.java:11-19 | the minimal ignore set holds every basic array class, exactly the methods of classes starting with `[`, and no class starting otherwise |
| Roots.ForClass | src/main/java/org/lockstepcheck/callgraph/Root.java:14-16 | a class root matches every method name and descriptor without line terminators |
| Roots.ForJavaClass | src/main/java/org/lockstepcheck/callgraph/Root.java:18-20 | a root from a Java class name replaces dots by slashes and matches every method |
| Roots.ForMethodName | src/main/java/org/lockstepcheck/callgraph/Root.java:22-24 | a named root matches exactly the methods of that name |
| Roots.ForMethodPath | src/main/java/org/lockstepcheck/callgraph/Root.java:26-28 | a method-path root matches exactly that name and descriptor |
| Roots.RootsNarrow | src/main/java/org/lockstepcheck/callgraph/Root.java:14-59 | a method-path root selects no more than its name root, which selects no more than its class root |
| CallGraphs.AddClass | src/main/java/org/javaportability/callgraph/CallGraph.java:210-217 | adding a known class fails with "already added"; otherwise the class is added without methods or interfaces and nothing else changes |
| CallGraphs.GetClass | src/main/java/org/javaportability/callgraph/CallGraph.java:227-233 | the lookup succeeds exactly for known classes and fails with "no such class" otherwise |
| CallGraphs.TryGetClass | src/main/java/org/javaportability/callgraph/CallGraph.java:243-245 | the lookup finds a node exactly for known classes |
| CallGraphs.AddInterface | src/main/java/org/javaportability/callgraph/CallGraph.java:37-39 | the link, possibly null, is appended to that class's interfaces and nothing else changes |
| CallGraphs.TryGetLocalMethod | src/main/java/org/javaportability/callgraph/CallGraph.java:89-96 | a method is found exactly when the class declares it, and it belongs to that class |
| CallGraphs.AddMethod | src/main/java/org/javaportability/callgraph/CallGraph.java:58-65 | redeclaring a method fails; otherwise it is appended to that class's methods and nothing else changes |
| CallGraphs.OutgoingExact | src/main/java/org/javaportability/callgraph/CallGraph.java:163-165 | a call site is among a method's outgoing calls exactly when it was logged with that method as caller |
| CallGraphs.AddCall | src/main/java/org/javaportability/callgraph/CallGraph.java:247-252 | a new call appears last among the caller's outgoing and the callee's incoming calls, and every other method's lists are unchanged |
| CallGraphs.OutgoingOfBatch | src/main/java/org/javaportability/callgraph/CallGraph.java:247-252 | logging several calls from one method appends them, in order, to its outgoing calls only |
| CallGraphs.Hierarchy | src/main/java/org/javaportability/callgraph/CallGraph.java:45-56 | the hierarchy starts with the class itself, lists only known classes, and fails only on a null interface link |
| CallGraphs.HierarchyIsReachable | src/main/java/org/javaportability/callgraph/CallGraph.java:45-56 | without null links the hierarchy succeeds and lists exactly the classes reachable through superclass and interface links |
| CallGraphs.HierarchyOfAllIsReachable | src/main/java/org/javaportability/callgraph/CallGraph.java:50-52 | the hierarchies of a list of interfaces together hold exactly what is reachable from one of them |
| CallGraphs.FirstDeclaring | src/main/java/org/javaportability/callgraph/CallGraph.java:68-73 | the first class of the hierarchy that declares the method, or none when none does |
| CallGraphs.TryGetMethod | src/main/java/org/javaportability/callgraph/CallGraph.java:67-75 | the method found is declared by the first class of the hierarchy declaring it; none is found when no class of the hierarchy declares it |
| CallGraphs.GetMethod | src/main/java/org/javaportability/callgraph/CallGraph.java:77-83 | the lookup returns the method `tryGetMethod` finds and fails with "no such method" when there is none |
| CallGraphs.HasMethod | src/main/java/org/javaportability/callgraph/CallGraph.java:85-87 | a class has a method exactly when some class of its hierarchy declares it |
| CallGraphs.MethodsIncludingInherited | src/main/java/org/javaportability/callgraph/CallGraph.java:114-120 | the list holds exactly the methods declared by some class of the hierarchy |
| CallGraphs.LocalMethodsOf | src/main/java/org/javaportability/callgraph/CallGraph.java:116-118 | a method is listed exactly when its class is among the classes given and declares it |
| CallGraphs.LocalMethodsBlock | src/main/java/org/javaportability/callgraph/CallGraph.java:116-118 | the list is the methods of the classes before the i-th, then the i-th class's own methods in declaration order, then those of the classes after it |
| CallGraphs.LocalMethodsCount | src/main/java/org/javaportability/callgraph/CallGraph.java:116-118 | a method occurs as many times as its class occurs in the list of classes, times the number of times the class declares it, so a class reached twice contributes its methods twice |
| CallGraphs.MethodsIncludingInheritedShape | src/main/java/org/javaportability/callgraph/CallGraph.java:114-120 | the list starts with the class's own methods in declaration order, is the concatenation of each hierarchy class's methods in hierarchy order, and repeats a method as often as its class occurs in the hierarchy |
| CallGraphs.HierarchyKept | src/main/java/org/javaportability/callgraph/CallGraph.java:45-56 | adding classes, and changing none already there, leaves the hierarchy of an existing class unchanged |
| CallGraphs.GetMethodKept | src/main/java/org/javaportability/callgraph/CallGraph.java:67-83 | adding classes leaves method lookup in an existing class unchanged |
| CallGraphs.MethodsIncludingInheritedKept | src/main/java/org/javaportability/callgraph/CallGraph.java:114-120 | adding classes leaves the methods including inherited ones of an existing class unchanged |
| CallGraphFacts.NullInterfaceBreaksHierarchy | src/main/java/org/javaportability/callgraph/CallGraph.java:45-56 | a class with a null interface link has no hierarchy |
| CallGraphFacts.OwnDeclarationShadows | src/main/java/org/javaportability/callgraph/CallGraph.java:67-83 | a class's own declaration wins over inherited ones |
| CallGraphFacts.FoundMethodIsInherited | src/main/java/org/javaportability/callgraph/CallGraph.java:67-120 | the method a lookup finds is among the methods including inherited ones |
| CallGraphFacts.HierarchyOfTop | src/main/java/org/javaportability/callgraph/CallGraph.java:45-56 | a class without links is its own whole hierarchy |
| CallGraphFacts.HierarchyOfSubclass | src/main/java/org/javaportability/callgraph/CallGraph.java:45-56 | a class with only a superclass has itself followed by the superclass's hierarchy |
| CallGraphFacts.HierarchyOfImplementor | src/main/java/org/javaportability/callgraph/CallGraph.java:45-56 | a class with only interfaces has itself followed by the interfaces' hierarchies in order |
| CallGraphFacts.HierarchyExample | src/test/java/org/javaportability/callgraph/CallGraphTest.java:58-72 | the hierarchy of the test's class D is D, C, B, A |
| CallGraphFacts.OverrideExample | src/test/java/org/javaportability/callgraph/CallGraphTest.java:103-116 | an overriding method is found in the subclass, and the methods including inherited ones are exactly two: it and the overridden method, in that order |
| CallGraphFacts.OverrideInheritedList | src/main/java/org/javaportability/callgraph/CallGraph.java:114-120 | in a graph shaped like the override test, the subclass's inherited list is its own method followed by the overridden one |
| CallGraphFacts.InterfaceMethodsExample | src/test/java/org/javaportability/callgraph/CallGraphTest.java:87-101 | methods declared only by implemented interfaces are found through the hierarchy |
| CallGraphFacts.DiamondExample | src/main/java/org/javaportability/callgraph/CallGraph.java:114-120 | with I declaring foo, A implementing I and B extending A and implementing I, the hierarchy of B is B, I, A, I, and I.foo is listed twice among B's methods including inherited ones |
| CallGraphFacts.CallsAreNotDeduplicated | src/main/java/org/javaportability/callgraph/CallGraph.java:247-252 | adding the same call twice records it twice on both ends |
| Bytecode.HasFloatResultExactly | src/main/java/org/portablejava/callgraph/CallGraphBuilder.java:318-362 | an instruction counts as floating-point arithmetic exactly when it produces a float or double by computing or converting |
| Bytecode.FloatConsumersExcluded | src/main/java/org/portablejava/callgraph/CallGraphBuilder.java:318-362 | conversions from floating point to integers and floating-point comparisons do not count |
| Bytecode.FlagsIndependent | src/main/java/org/portablejava/callgraph/CallGraphBuilder.java:280-286 | the strictfp and native tests read their own access bit only |
| Bytecode.CallsIn | src/main/java/org/portablejava/callgraph/CallGraphBuilder.java:303-308 | the calls recorded for a method are exactly its invoke instructions, no more of them than instructions |
| Builder.BasicArrayClassesAreIgnored | src/main/java/org/portablejava/callgraph/CallGraphBuilder.java:114-116 | every basic array class is ignored |
| Builder.GraphInvValid | src/main/java/org/portablejava/callgraph/CallGraphBuilder.java:133-144 | a graph whose classes were all added by the builder is well formed, with acyclic links |
| Builder.AddClassKeepsGraphInv | src/main/java/org/portablejava/callgraph/CallGraphBuilder.java:230-235 | adding a decoded class with its discovered superclass keeps the builder's graph invariant |
| Builder.Discover | src/main/java/org/portablejava/callgraph/CallGraphBuilder.java:133-144 | an ignored class is skipped; an unknown class fails with `ClassNotFoundException`; otherwise the class is in the graph afterwards and the graph only grew |
| Builder.DiscoverDecoded | src/main/java/org/portablejava/callgraph/CallGraphBuilder.java:137-140 | visiting a loaded class adds it to the graph, or fails only because a dependency is missing |
| Builder.Populate | src/main/java/org/portablejava/callgraph/CallGraphBuilder.java:230-239 | adding a loaded class after its superclass leaves the class in the graph, only grows the graph, and fails only on a missing dependency or a duplicate |
| Builder.Dependency | src/main/java/org/portablejava/callgraph/CallGraphBuilder.java:241-257 | a dependency returned is the named class and is in the graph, the graph only grows, and a missing class is reported wrapped |
| Builder.AddInterfaces | src/main/java/org/portablejava/callgraph/CallGraphBuilder.java:236-238 | every interface link of the class is appended after the existing ones, and its superclass and methods are untouched |
| Builder.VisitMethod | src/main/java/org/portablejava/callgraph/CallGraphBuilder.java:259-278 | an ignored method changes nothing; otherwise it is declared, its calls are recorded, and it is marked strictfp, native or floating-point exactly when its flags and code say so; a duplicate fails |
| Builder.VisitMethodsDeclares | src/main/java/org/portablejava/callgraph/CallGraphBuilder.java:259-269 | visiting a class's methods declares exactly the ones not ignored, in order |
| Builder.VisitMethodsRecordsCalls | src/main/java/org/portablejava/callgraph/CallGraphBuilder.java:296-308 | the call lists recorded are exactly those of the methods not ignored |
| Builder.VisitMethodsMarks | src/main/java/org/portablejava/callgraph/CallGraphBuilder.java:270-275 | each mark gains exactly the kept methods that carry it |
| BuildLoop.UndiscoveredOwners | src/main/java/org/portablejava/callgraph/CallGraphBuilder.java:180-195 | the classes queued are exactly the callee owners neither in the graph nor ignored |
| BuildLoop.NotIgnored | src/main/java/org/portablejava/callgraph/CallGraphBuilder.java:202-205 | the callees processed are exactly those not ignored |
| BuildLoop.Resolve | src/main/java/org/portablejava/callgraph/CallGraphBuilder.java:175-178 | a callee resolves to the method lookup finds in its owner, which has the same name and descriptor |
| BuildLoop.ResolveEach | src/main/java/org/portablejava/callgraph/CallGraphBuilder.java:202-208 | every callee resolves or the whole step fails |
| BuildLoop.RecordCalls | src/main/java/org/portablejava/callgraph/CallGraphBuilder.java:207-212 | one call site per callee is logged, and the callees not yet done are queued |
| BuildLoop.ProcessCalls | src/main/java/org/portablejava/callgraph/CallGraphBuilder.java:197-216 | the method becomes done, its call list is consumed, its outgoing calls gain one site per kept callee, and the undone callees are queued; a missing call list fails |
| BuildLoop.TryProcessMethod | src/main/java/org/portablejava/callgraph/CallGraphBuilder.java:152-173 | a method of an undiscovered class queues the class and stays; otherwise the method is resolved and processed |
| BuildLoop.TryProcessNode | src/main/java/org/portablejava/callgraph/CallGraphBuilder.java:160-172 | a done method is dropped; one with undiscovered callee classes queues them and stays; otherwise it is processed |
| BuildLoop.FoundIsSelf | src/main/java/org/portablejava/callgraph/CallGraphBuilder.java:175-178 | a method declared in the graph resolves to itself |
| BuildLoop.WorkClassQueue | src/main/java/org/portablejava/callgraph/CallGraphBuilder.java:95-100 | the head of the class queue is dropped and, if unknown and not ignored, discovered |
| BuildLoop.Step | src/main/java/org/portablejava/callgraph/CallGraphBuilder.java:75-93 | a turn of the loop never ends with a missing class still wrapped or reported as a missing root; while classes are queued, a turn takes only the head class and leaves the method queue, the processed set and the call log as they were |
| BuildLoop.MainLoop | src/main/java/org/portablejava/callgraph/CallGraphBuilder.java:75-93 | the loop ends with both queues empty, keeps the invariant, and every method queued at the start that is in the graph is done; started from a closed-under-processing state, it ends with every call site leaving and reaching a processed method and every processed method having exactly the call sites its body's calls give |
| BuildLoop.Turn | src/main/java/org/portablejava/callgraph/CallGraphBuilder.java:77-83 | one pass of the loop either fails with one of the loop's own errors or makes progress, keeps the invariant and everything recorded, keeps queued methods tracked, and keeps a closed graph closed |
| BuildLoop.TurnKeepsClosure | src/main/java/org/portablejava/callgraph/CallGraphBuilder.java:77-83 | a step of the loop keeps the graph closed under processing when it was closed before |
| BuildLoop.IdleClosed | src/main/java/org/portablejava/callgraph/CallGraphBuilder.java:84-85 | when the method queue is empty, a graph kept closed since the start is complete |
| BuildLoop.StepKeepsClosure | src/main/java/org/portablejava/callgraph/CallGraphBuilder.java:197-216 | each turn of the loop keeps the closure: sites leave processed methods, every site target is processed or found for a queued method, and every processed method's sites are those of its recorded calls |
| BuildLoop.ClosedCalleesDone | src/main/java/org/portablejava/callgraph/CallGraphBuilder.java:197-216 | once the loop is done, every method that a processed method's kept calls resolve to is itself processed |
| BuildLoop.InitialClosure | src/main/java/org/portablejava/callgraph/CallGraphBuilder.java:41-49 | the empty builder state satisfies the loop invariant and the closure |
| BuildLoop.Matching | src/main/java/org/portablejava/callgraph/CallGraphBuilder.java:122-131 | the methods enqueued for a root are exactly those whose name and descriptor it matches |
| BuildLoop.EnqueueRoot | src/main/java/org/portablejava/callgraph/CallGraphBuilder.java:122-131 | the methods including inherited ones that the root matches are appended to the method queue, in the order of the inherited-method list, and nothing else changes |
| BuildLoop.MatchingAppend | src/main/java/org/portablejava/callgraph/CallGraphBuilder.java:125-129 | the matching methods of a concatenated list are those of its first part followed by those of its second, so the filter keeps list order |
| BuildLoop.DiscoverRoot | src/main/java/org/portablejava/callgraph/CallGraphBuilder.java:58-61 | a root class not yet discovered is discovered; a missing root class fails naming that class; discovery keeps the closure |
| BuildLoop.EnqueuedRootQueued | src/main/java/org/portablejava/callgraph/CallGraphBuilder.java:122-131 | after queueing, every method of the root class's hierarchy that the root matches is queued and in the graph |
| BuildLoop.RootMethodsQueued | src/main/java/org/portablejava/callgraph/CallGraphBuilder.java:122-131 | every method the root class declares and the root matches is queued |
| BuildLoop.AddRoot | src/main/java/org/portablejava/callgraph/CallGraphBuilder.java:55-69 | an ignored root changes nothing; otherwise the root's class is in the graph and every method of its hierarchy that the root matches is done when the loop ends; from a closed state the graph stays closed under processing, so the next root can start from it, and ends complete; a missing root class fails naming that class |
| BuildLoop.RootDoneKept | src/main/java/org/portablejava/callgraph/CallGraphBuilder.java:55-69 | a root whose matching methods are all processed stays so as the builder adds to its graph |
| BuildLoop.AddRoots | src/main/java/org/javaportability/app/Main.java:87-89 | adding the roots in turn stops at the first failure; on success every root that is not ignored has all its matching methods processed, and a closed graph stays closed and ends complete |
| BuildLoop.BuildCallGraph | src/main/java/org/javaportability/app/Main.java:81-91 | from a fresh builder, the call graph built for all roots is closed under calls: every site leaves and reaches a processed method, each processed method has exactly its body's sites, and every matching method of each root that is not ignored is processed |
| CallPaths.Methods | src/main/java/org/portablejava/analysis/results/CallPath.java:8-19 | a call path lists at least its own method, and only one exactly when it has no next |
| CallPaths.MethodsInjective | src/main/java/org/portablejava/analysis/results/CallPath.java:8-19 | two call paths listing the same methods are the same path |
| CallPaths.Single | src/main/java/org/portablejava/analysis/results/CallPath.java:12-14 | a one-method path lists that method and has no next |
| CallPaths.Prepend | src/main/java/org/portablejava/analysis/results/CallPath.java:16-19 | prepending puts the method in front of the rest |
| CallPaths.HasNextIffLonger | src/main/java/org/portablejava/analysis/results/CallPath.java:37-39 | a path has a next exactly when it lists more than one method |
| CallPaths.Make | src/main/java/org/portablejava/analysis/results/CallPath.java:21-27 | building a path from a list gives nothing for an empty list and otherwise a path listing exactly those methods |
| CallPaths.MakeOfMethods | src/main/java/org/portablejava/analysis/results/CallPath.java:21-27 | rebuilding a path from its methods gives the path back |
| CallPaths.IterNext | src/main/java/org/portablejava/analysis/results/CallPath.java:94-99 | the iterator yields the current method and moves to the rest |
| CallPaths.IterRemove | src/main/java/org/portablejava/analysis/results/CallPath.java:101-104 | removal through the iterator is unsupported |
| CallPaths.Iterate | src/main/java/org/portablejava/analysis/results/CallPath.java:41-44 | iterating a path yields exactly its methods |
| CallPaths.Equals | src/main/java/org/portablejava/analysis/results/CallPath.java:51-63 | a path equals an object exactly when that object is a path listing the same methods |
| CallPaths.EqualsIsIdentity | src/main/java/org/portablejava/analysis/results/CallPath.java:51-63 | path equality is structural identity |
| CallPaths.HashCode | src/main/java/org/portablejava/analysis/results/CallPath.java:46-49 | the hash is an even 32-bit integer |
| CallPaths.HashConsistentWithEquals | src/main/java/org/portablejava/analysis/results/CallPath.java:46-63 | equal paths have equal hashes |
| CallPaths.LongerChainsCollide | src/main/java/org/portablejava/analysis/results/CallPath.java:46-49 | paths of two or more methods with the same first method hash alike |
| CallPaths.MethodLabel | src/main/java/org/portablejava/analysis/results/CallPath.java:78-80 | a method is shown as short class name and method name, and fails exactly when the short name fails |
| CallPaths.RenderSucceedsIff | src/main/java/org/portablejava/analysis/results/CallPath.java:65-80 | a path renders exactly when every method on it can be labelled |
| CallPaths.ToString | src/main/java/org/portablejava/analysis/results/CallPath.java:65-76 | the loop rendering a path gives the labels joined by arrows |
| CallPaths.RenderPrepend | src/main/java/org/portablejava/analysis/results/CallPath.java:65-80 | rendering a prepended path puts the new label and an arrow before the rest |
| Analyzer.WitnessOfOne | src/main/java/org/javaportability/analysis/StrictfpSafetyAnalyzer.java:35-36 | a method not assumed safe and not locally safe is a witness chain by itself |
| Analyzer.WitnessExtend | src/main/java/org/javaportability/analysis/StrictfpSafetyAnalyzer.java:38-44 | a method not assumed safe in front of a witness chain it calls into is a witness chain |
| Analyzer.LastChained | src/main/java/org/javaportability/analysis/StrictfpSafetyAnalyzer.java:38-45 | the last callee in the list that has a chain, or none |
| Analyzer.AnalyzeMethod | src/main/java/org/javaportability/analysis/StrictfpSafetyAnalyzer.java:31-49 | every recorded chain is a real witness chain; the entries of methods analysed before never change; an analysed method is skipped; an assumed-safe method gets no chain; an unsafe method gets itself alone; any other method without a self-call gets the chain of its last chained callee |
| Analyzer.AnalyzeCallees | src/main/java/org/javaportability/analysis/StrictfpSafetyAnalyzer.java:38-46 | every callee is analysed, chains stay witness chains, and, when no callee is the method itself, the method ends with the last chained callee's chain |
| Analyzer.Record | src/main/java/org/javaportability/analysis/StrictfpSafetyAnalyzer.java:41-44 | a method takes its callee's chain with itself in front |
| Analyzer.AnalyzeEach | src/main/java/org/javaportability/analysis/StrictfpSafetyAnalyzer.java:24-28 | analysing, in list order, each listed method the root matches keeps every chain a witness chain |
| Analyzer.AnalyzeEachAppend | src/main/java/org/javaportability/analysis/StrictfpSafetyAnalyzer.java:24-28 | analysing a concatenated list is analysing its first part and then its second from that result |
| Analyzer.AnalyzeEachOne | src/main/java/org/javaportability/analysis/StrictfpSafetyAnalyzer.java:25-27 | a one-method list runs `analyzeMethod` on the method exactly when the root matches it, and otherwise changes nothing |
| Analyzer.AnalyzeMatching | src/main/java/org/javaportability/analysis/StrictfpSafetyAnalyzer.java:24-28 | the loop's result is `analyzeMethod` applied in list order to each listed method the root matches; every such method is analysed, entries analysed before stay, and chains stay witness chains |
| Analyzer.AnalyzeRoot | src/main/java/org/javaportability/analysis/StrictfpSafetyAnalyzer.java:22-29 | an unknown class or a failing hierarchy fails; otherwise every method of the class, inherited ones included, that the root matches is analysed, the result is `analyzeMethod` applied in order to each of them in the inherited-method list, and chains stay witness chains |
| Analyzer.AssumedSafeNeverUnsafe | src/main/java/org/javaportability/analysis/StrictfpSafetyAnalyzer.java:34 | an assumed-safe method has no chain and lies on no chain |
| Analyzer.AssumedSafeWins | src/main/java/org/javaportability/analysis/StrictfpSafetyAnalyzer.java:32-34 | a method both assumed safe and assumed unsafe counts as safe |
| Analyzer.AssumedUnsafeIsUnsafe | src/main/java/org/javaportability/analysis/StrictfpSafetyAnalyzer.java:59-60 | an assumed-unsafe method that is not assumed safe gets itself alone as chain |
| Analyzer.EntryIsFinal | src/main/java/org/javaportability/analysis/StrictfpSafetyAnalyzer.java:32-33 | once analysed, a method's entry never changes through later analyses |
| AnalyzerExamples.LastCalleeWins | src/main/java/org/javaportability/analysis/StrictfpSafetyAnalyzer.java:38-45 | with two chained callees, the later one's chain overwrites the earlier one's |
| AnalyzerExamples.CallsBackIntoChain | src/main/java/org/javaportability/analysis/StrictfpSafetyAnalyzer.java:37-44 | a method whose only call goes back to an analysed method with a chain gets that chain with itself in front, and the callee's chain stays |
| AnalyzerExamples.CyclicCallsInvolvingUnsafe | src/test/java/org/javaportability/analysis/StrictfpSafetyAnalyzerTest.java:67-87 | on the ring m1 -> m2 -> m3 -> m1 with m3 -> unsafe and m2 strictfp, the walk from m1 gives m1 the chain m1, m2, m3, unsafe |
| AnalyzerExamples.CycleLosesChain | src/main/java/org/javaportability/analysis/StrictfpSafetyAnalyzer.java:31-49 | on the cycle a -> b -> a with a -> u unsafe, b ends analysed without a chain and is never looked at again, although b, a, u is a witness chain |
| AnalyzerExamples.CycleChainRestored | src/main/java/org/javaportability/app/Main.java:93-102 | after completion b has a chain, and it is a witness chain |
| Completion.PassBack | src/main/java/org/javaportability/analysis/StrictfpSafetyAnalyzer.java:41-44 | an analysed caller without a chain takes its callee's chain with itself in front; other chains stay |
| Completion.Pass | src/main/java/org/javaportability/analysis/StrictfpSafetyAnalyzer.java:38-45 | one pass keeps every chain, and a pass that changes nothing found no call site to pass a chain along |
| Completion.Propagate | src/main/java/org/javaportability/analysis/StrictfpSafetyAnalyzer.java:38-45 | after propagation no analysed caller without a chain calls a method with one, and the walk's chains stay |
| Completion.ChainIffReachable | src/main/java/org/javaportability/analysis/StrictfpSafetyAnalyzer.java:31-49 | after propagation an analysed method has a chain exactly when a witness chain starts at it |
| Completion.PropagateKeepsClosed | src/main/java/org/javaportability/analysis/StrictfpSafetyAnalyzer.java:31-49 | propagation keeps every analysed method fully analysed |
| Completion.AnalyzeRootClosed | src/main/java/org/javaportability/app/Main.java:98-100 | one root on a fully analysed state fails exactly when its class does not resolve, and otherwise analyses every method it selects and keeps every analysed method fully analysed |
| Completion.AnalyzeRoots | src/main/java/org/javaportability/app/Main.java:93-102 | all roots succeed exactly when every root class resolves; every method a root selects is analysed and has a chain exactly when a witness chain starts at it |
| ConfigLines.WithField | src/main/java/org/javaportability/app/ConfigFileLoader.java:52-59 | setting one of the four node sets leaves the others alone |
| ConfigLines.CommentStart | src/main/java/org/javaportability/app/ConfigFileLoader.java:16 | the comment starts at the first `#` or `//`, or at the end when there is none |
| ConfigLines.CleanLine | src/main/java/org/javaportability/app/ConfigFileLoader.java:65-67 | a cleaned line has no comment and no surrounding blanks, is empty exactly when nothing but blanks precedes the comment, and is the text before the comment with its blank runs at both ends removed |
| ConfigLines.CleanLineUnique | src/main/java/org/javaportability/app/ConfigFileLoader.java:65-67 | the cleaned line is determined by its frame: the non-blank-ended middle of the text before the comment |
| ConfigLines.CleanLineIdempotent | src/main/java/org/javaportability/app/ConfigFileLoader.java:65-67 | cleaning a cleaned line changes nothing |
| ConfigLines.CleanLineKeepsClean | src/main/java/org/javaportability/app/ConfigFileLoader.java:65-67 | a line without comment or surrounding blanks is left as it is |
| ConfigLines.CommentDropped | src/main/java/org/javaportability/app/ConfigFileLoader.java:16 | text after `#` or `//` is dropped and the rest is trimmed |
| ConfigLines.SplitDirective | src/main/java/org/javaportability/app/ConfigFileLoader.java:46-48 | the command is the part before the first whitespace; the argument follows the whitespace run, or is empty |
| ConfigLines.SplitDirectiveJoin | src/main/java/org/javaportability/app/ConfigFileLoader.java:46-48 | a command, whitespace and an argument split back into that command and argument |
| ConfigLines.DirectiveOf | src/main/java/org/javaportability/app/ConfigFileLoader.java:52-60 | exactly `ignore`, `safe`, `unsafe` and `allowfp` are commands |
| ConfigLines.DirectiveName | src/main/java/org/javaportability/app/ConfigFileLoader.java:52-60 | each command's name is read back as that command |
| ConfigLines.ProcessLine | src/main/java/org/javaportability/app/ConfigFileLoader.java:41-63 | a blank or comment line changes nothing; an unknown command fails with the cleaned line in the message; a known one adds to its own node set exactly the classes its glob matches and the methods whose class or `owner::name` the glob matches, and leaves the other sets unchanged |
| ConfigLines.ProcessLines | src/main/java/org/javaportability/app/ConfigFileLoader.java:33-39 | processing lines only adds to the node sets, and fails only with a usage error |
| ConfigLines.ProcessLinesAppend | src/main/java/org/javaportability/app/ConfigFileLoader.java:35-37 | processing two runs of lines is processing the first, then the second from where it left off |
| ConfigLines.DirectiveLine | src/main/java/org/javaportability/app/ConfigFileLoader.java:52-71 | `cmd pattern` is accepted and adds to that command's node set exactly the classes the pattern matches and the methods whose class or `owner::name` it matches; the other sets are unchanged |
| ConfigLines.BlankLinesAround | src/main/java/org/javaportability/app/ConfigFileLoader.java:43-45 | blank lines around a line change nothing |
| ConfigLines.CommentLinesExample | src/test/java/org/javaportability/app/ConfigFileLoaderTest.java:57-63 | comment lines are skipped and `ignore *` ignores exactly the classes whose names hold no line terminator, besides those ignored before |
| ConfigLines.IgnoreAll | src/main/java/org/javaportability/app/ConfigFileLoader.java:52-60 | `ignore *` adds exactly the classes whose names have no line terminator to the ignore set |
| ConfigLines.SafeAndUnsafeOverlap | src/test/java/org/javaportability/app/ConfigFileLoaderTest.java:25-50 | `safe` and `unsafe` with the same pattern put its classes in both sets |
| Arguments.FirstBadElement | src/main/java/org/javaportability/app/ArgParser.java:112-118 | the first search-path element ending neither in `.jar` nor in a slash, or none |
| Arguments.SearchPathArg | src/main/java/org/javaportability/app/ArgParser.java:106-118 | a search path succeeds exactly when every element ends in `.jar` or a slash, and its value is then the split of the argument at `:`; otherwise the message names the first element that does not |
| Arguments.SearchPathJoin | src/main/java/org/javaportability/app/ArgParser.java:107 | a search path not ending in a colon is the join of its elements |
| Arguments.SearchPathOfTwo | src/test/java/org/javaportability/app/ArgParserTest.java:44-64 | `a:b` gives the elements a and b, and a bad first element is named in the error |
| Arguments.LoadConfigFile | src/main/java/org/javaportability/app/ArgParser.java:120-123 | a missing file fails; otherwise its lines are processed |
| Arguments.ProcessArgs | src/main/java/org/javaportability/app/ArgParser.java:56-80 | the loop keeps the help flag and earlier targets, only adds to the node sets, and leaves the search path alone or replaces it with a checked one |
| Arguments.ParseArgs | src/main/java/org/javaportability/app/ArgParser.java:17-21 | any help flag wins; no arguments fail with "Command argument required"; a command other than `verify` fails naming it; a success without help has targets |
| Arguments.TargetsMeaning | src/main/java/org/javaportability/app/ArgParser.java:64-79 | the targets are exactly the words not starting with `-` that are not option arguments, in order |
| Arguments.TraceMeaning | src/main/java/org/javaportability/app/ArgParser.java:66-67 | tracing is on exactly when `--debug` is a free word |
| Arguments.VerboseMeaning | src/main/java/org/javaportability/app/ArgParser.java:68-69 | verbose is on exactly when `-v` or `--verbose` is a free word |
| Arguments.FlagsKnown | src/main/java/org/javaportability/app/ArgParser.java:74-75 | every free word starting with `-` in an accepted argument list is a known flag |
| Arguments.MissingArgument | src/main/java/org/javaportability/app/ArgParser.java:99-104 | an option that needs an argument and comes last fails with its own message |
| Arguments.ParseArgsMeaning | src/main/java/org/javaportability/app/ArgParser.java:17-80 | an accepted command line without help starts with `verify` and has exactly the described targets, trace and verbose flags; the search path is that of the last `-p`/`--path`, or absent without one; the node sets are those of the `-c`/`--config` files loaded in order |
| Arguments.SearchPathMeaning | src/main/java/org/javaportability/app/ArgParser.java:106-110 | in an accepted argument list every path flag has an argument; without one the search path is unchanged; with them it is the split of the last one's argument |
| Arguments.PathArgsPresent | src/main/java/org/javaportability/app/ArgParser.java:99-107 | in an accepted argument list every free `-p`/`--path` is followed by its argument, since a missing one is refused |
| Arguments.NoPathKeeps | src/main/java/org/javaportability/app/ArgParser.java:64-80 | an accepted argument list with no free path flag leaves the search path as it was |
| Arguments.LastPathWins | src/main/java/org/javaportability/app/ArgParser.java:106-110 | the search path after an accepted list is the `:`-split argument of its last free path flag, whatever earlier ones said |
| Arguments.PathArgsLift | src/main/java/org/javaportability/app/ArgParser.java:99-107 | if every path flag after the first word has its argument, every path flag of the whole list does |
| Arguments.PathOptionAccepted | src/main/java/org/javaportability/app/ArgParser.java:99-109 | an accepted list that starts with a path flag has a valid search path after it |
| Arguments.FirstStepPath | src/main/java/org/javaportability/app/ArgParser.java:70-71 | the first word sets the search path to the split of the next word exactly when it is a path flag, and leaves it alone otherwise |
| Arguments.FirstStepConfig | src/main/java/org/javaportability/app/ArgParser.java:72-73 | the first word loads the file named by the next word into the node sets exactly when it is a config flag, and leaves them alone otherwise |
| Arguments.LoadConfigFiles | src/main/java/org/javaportability/app/ArgParser.java:120-123 | loading several config files in order succeeds only when every name is a known file, and a failure for a missing file names one of them that is missing |
| Arguments.ConfigMeaning | src/main/java/org/javaportability/app/ArgParser.java:120-123 | in an accepted argument list the node sets are those obtained by loading the config-flag arguments in order |
| Arguments.NoTargetsGiven | src/main/java/org/javaportability/app/ArgParser.java:134-140 | a command line without help succeeds exactly when it names a target, and fails with "No targets given" otherwise |
| Arguments.UsageErrorExamples | src/test/java/org/javaportability/app/ArgParserTest.java:66-84 | `verify` alone fails with "No targets given", and `oops` fails as an invalid command |
| Arguments.CombinedExample | src/test/java/org/javaportability/app/ArgParserTest.java:52-59 | `verify --path p t1 t2` sets the search path to p and the targets to t1, t2, with all flags off |

## Left out

- Reading class files is left out. The loader becomes a map from class name
  to decoded class; I/O errors other than a missing class are not modelled.
- Parsing class files with ASM is left out: the class reader, the visitor
  callbacks and the annotation helpers. The model keeps what they produce:
  the superclass, the interfaces, the method flags, the calls in order and
  whether a method does floating-point arithmetic.
- The earlier rewrites of the tool (`org/strictfptool`, `org/lockstepcheck`
  and the other `org/portablejava` copies) are not modelled. Each component
  is modelled once, from its newest copy. The older copies differ in a few
  ways: a superclass-only lookup, a wider float classifier, enqueueing of
  inner classes, and no overrides in the analyser.
- The analyser reads its whitelist as `fpmathWhitelist`, but the
  javaportability settings class names the set `allowedFpMath`. The model
  has a single set, filled by the `allowfp` directive.
- Accessors of `MethodPath` and `Root` are the datatypes' fields.
- Main, Reporter and the report output are left out. The model stops at the
  chains that are recorded.
- Trace output and verbose messages are left out; the flags are modelled.
- `ArgParser.getUsage` returns only fixed text and is left out.
- Main's parsing of targets into roots is left out.
- `getLocalMethod` and `hasLocalMethod` are left out. They are
  `TryGetLocalMethod` with a throw or a null test.
- The `File` argument of `loadConfig` becomes a map from file name to lines.
  A missing file gives `ConfigFileNotFound` where the Java code throws a
  `RuntimeException`.
- `File.separator` is taken to be `/`.
- Lines are read without line terminators. `Scanner.nextLine` splits at them.
- `Pattern.quote` and the regex engine are left out. The compiled pattern is
  a token list of literals and `.*` runs, so matching is glob matching.
- The Java regex `.` does not match the line terminators `\n`, `\r`, U+0085,
  U+2028 and U+2029, so a `*` of a wildcard matches only runs without them.
  The glob that `Wildcards.CompileMatchesGlob` proves equivalent reads `*` the
  same way, so no property needs a side condition for it.
- A Java string may hold a lone surrogate code unit; a Dafny `char` cannot be
  one. Hashing and comparison are modelled over the UTF-16 code units of
  strings of Unicode scalar values, so strings with lone surrogates are not
  modelled. Modified UTF-8 in a class file can encode such names; compilers
  do not emit them.
- MethodPaths.StringHashIsPolynomialMod32: holds for every name made of
  Unicode scalar values; names holding a lone surrogate cannot be stated.
- JavaStrings.CompareStringsByCodeUnit: the same restriction to strings
  without lone surrogates.
- The builder's test `version & ACC_INTERFACE` checks the class-file version,
  not the access flags. The model always takes that branch, which is what
  real class files do.
- `Object.hashCode` of a method node is a parameter of `CallPaths.HashCode`.
- BuildLoop.BuildCallGraph: requires `Builder.DecoderAcyclic`, that no
  class reaches itself through superclass and interface links between
  decoded, non-ignored classes. On such a cycle `discoverClass` and
  `getDependency` (CallGraphBuilder.java:133-144 and 241-257) recurse into
  each other before any class of the cycle is added, and the Java code ends
  in a `StackOverflowError`; the model does not describe that outcome. Links
  into an ignored class or a class without a class file are not followed,
  so cycles through those are allowed.
- BuildLoop.MainLoop: the same acyclic-decoder requirement, for the same
  reason; so do BuildLoop.Step, BuildLoop.AddRoot and BuildLoop.AddRoots.
- Analyzer.AnalyzeMethod: the last-callee-wins postcondition excludes a
  method that calls itself. In that case the self-call sees the method's
  own chain in the middle of the loop.
- Analyzer.AnalyzeCallees: the last-chained-callee postcondition is stated
  only when none of the remaining call sites calls the method itself. A
  self-call reads back the chain the method has at that moment and puts the
  method in front of it again, which that clause does not describe.
- AnalyzerExamples.CycleChainRestored: states that b's chain is a witness
  chain, not which one.
- Wildcards.Compile: the token list equals the Java regex only up to the
  glob equivalence proved in `Wildcards.CompileMatchesGlob`.

## Findings

| source | as written | input that shows it | evidently intended | confidence | as-written member | corrected member |
|---|---|---|---|---|---|---|
| src/main/java/org/javaportability/analysis/StrictfpSafetyAnalyzer.java:31-49 | the walk marks a method analysed before its callees and never revisits it; a method met again while it is still being analysed counts as having no chain | calls a -> b, b -> a, a -> u, with u doing floating-point arithmetic outside `strictfp`; analyse a, then b | every analysed method that can reach an unsafe method through methods not assumed safe has a chain; b -> a -> u is one | not executed | AnalyzerExamples.CycleLosesChain | Completion.ChainIffReachable |
