# lobzik, modelled in Dafny

lobzik is a Gradle plugin that helps break up a monolithic Android module.
It works in stages:

- It reads every project's compiled classes with ASM and counts, per class,
  the classes it refers to.
- Decompiled APKs are handled by a smali text scanner instead.
- The per-project dependency tables are merged into one graph of class
  nodes and weighted edges.
- After Gephi's modularity clustering has put every class into a
  community, a report is written. For each community it gives a label made
  of CamelCase tokens, the cut and conductance towards the monolith and
  feature modules, the list of dependencies to break, and a graph of
  communities.

This project models the repository's own logic in these stages and
proves properties of it:

| file | models |
|---|---|
| `common.dfy` | the Kotlin/Java string and collection calls the code relies on (`indexOf`, `substringBefore`, `substringAfterLast`, `replace`, counting folds, `groupBy` key order) |
| `sorting.dfy` | `sortedBy` / `sortedByDescending` on `Double` keys: a stable sort, NaN ranked highest |
| `bytecode.dfy` | `BytecodeAnalyzer.kt`: the shared count map and the ASM visitor callbacks as imperative classes, with a hand-written scanner for `L\w[\w/$]+;` and `<(.+?)>` |
| `class_dependencies.dfy` | the `parseClassDependencies` / `filterToClassFiles` pipeline shared by the two per-project tasks, with `canonicalize` and `isOk` as parameters |
| `project_dependency_graph.dfy` | `LobzikProjectDependencyGraphTask.kt`: inner classes collapse at `$`, deny patterns on the simple name, rows flattened per (source, target) |
| `list_project_classes.dfy` | `LobzikListProjectClassesTask.kt`: `$` kept, deny patterns on the full name, rows not merged, zip-entry filter |
| `aggregate.dfy` | `LobzikAggregateDependenciesTask.kt`: per-project CSV rows into a deduplicated node set and a verbatim edge list |
| `smali.dfy` | `SmaliAnalyzer.java`: the `L…;` line scanner, per-line counting, the nested dependency map merged in place, and its `$`-free view |
| `graph.dfy` | the clustered graph both `GraphRoutine.kt` files work on: the module filter, communities, out-edges, dependency cuts, `NodeCollectionFilter` |
| `labels.dfy` | CamelCase tokenisation, term counts and the top-3 community label of both `GraphRoutine.kt` files |
| `graph_routine.dfy` | the weighted cut, monolith cut and conductance, the report and table order, the class counts and the community graph of `src/.../graph/GraphRoutine.kt` |
| `graph_processing.dfy` | the unweighted conductance and the report order of `graph-processing/.../graph/GraphRoutine.kt` |

Kotlin's `String?` and other nullable values are `Option`. A call that
throws becomes an `ok` flag or a `None` result. Regular expressions that
come from the user, such as the ignored-class patterns and the feature-module
patterns, become function-valued parameters. Weights and ratios are
`real`.

Two `GraphRoutine.kt` files share much of their code. Such code is
modelled once, and its members cite the lines of the `src/` file. Some
rows also name, in their third column, the lines where the same code sits
in `graph-processing/`.

For a community whose out-edges weigh 0 in total, the code divides 0 by
0, which is NaN in Kotlin. `Conductance` is `None` then, and the sort
ranks it as `Double.compareTo` ranks NaN, above every number.

## Model

| member | source | states |
|---|---|---|
| Common.IndexOfFrom | apk-dependency-graph-builder/src/main/java/com/alex_zaitsev/adg/SmaliAnalyzer.java:164-166 | Java's `indexOf(c, from)`: a position it finds lies at or after `from` and holds `c` |
| Common.IndexOfFromFirst | apk-dependency-graph-builder/src/main/java/com/alex_zaitsev/adg/SmaliAnalyzer.java:164-166 | no position between `from` and the one found holds `c`, and None means no position at or after `from` holds `c` |
| Common.IndexOfFromUnique | apk-dependency-graph-builder/src/main/java/com/alex_zaitsev/adg/SmaliAnalyzer.java:164-166 | a position holding `c` with no `c` between `from` and it is exactly what `indexOf` returns |
| Common.LastIndexOf | apk-dependency-graph-builder/src/main/java/com/alex_zaitsev/adg/SmaliAnalyzer.java:99 | `lastIndexOf(c)`: the last position holding `c`, or None when `c` does not occur |
| Common.SubstringBefore | src/main/kotlin/xyz/mishkun/lobzik/dependencies/perproject/LobzikProjectDependencyGraphTask.kt:93 | the result is a prefix free of `c`, and is either all of the input or followed by `c` |
| Common.SubstringBeforeUnique | src/main/kotlin/xyz/mishkun/lobzik/dependencies/perproject/LobzikProjectDependencyGraphTask.kt:93 | any prefix free of `c` that is all of the input or followed by `c` is the result, so the result is unique |
| Common.SubstringAfterLast | src/main/kotlin/xyz/mishkun/lobzik/dependencies/perproject/LobzikProjectDependencyGraphTask.kt:90 | the result is a suffix free of `c`, and is either all of the input or preceded by `c` |
| Common.ReplaceChar | src/main/kotlin/xyz/mishkun/lobzik/dependencies/perproject/LobzikProjectDependencyGraphTask.kt:92 | `replace('/', '.')`: same length, and every `from` becomes `to` while every other character is kept |
| Common.ReplaceCharAppend | src/main/kotlin/xyz/mishkun/lobzik/moduleinfo/LobzikListProjectClassesTask.kt:82 | replacing characters commutes with concatenation |
| Common.IndexOfString | src/main/kotlin/xyz/mishkun/lobzik/dependencies/aggregate/LobzikAggregateDependenciesTask.kt:31 | the first occurrence of a string at or after `from`, or None when it does not occur there |
| Common.SubstringBeforeString | src/main/kotlin/xyz/mishkun/lobzik/dependencies/aggregate/LobzikAggregateDependenciesTask.kt:31 | the text before the first occurrence of the delimiter, or the whole text when it does not occur |
| Common.Count | src/main/kotlin/xyz/mishkun/lobzik/graph/GraphRoutine.kt:162 | the number of occurrences is at most the length and is positive exactly when the element occurs |
| Common.CountAppend | src/main/kotlin/xyz/mishkun/lobzik/graph/GraphRoutine.kt:162 | occurrences of two concatenated sequences add up |
| Common.Tally | src/main/kotlin/xyz/mishkun/lobzik/graph/GraphRoutine.kt:162 | the `merge(el, 1, Int::plus)` fold: the keys are exactly the elements, and each maps to its number of occurrences; the second report has the same code at `graph-processing/src/main/kotlin/xyz/mishkun/lobzik/graph/GraphRoutine.kt:175` |
| Common.FirstOccurrences | src/main/kotlin/xyz/mishkun/lobzik/graph/GraphRoutine.kt:158 | the keys of `groupBy` / an insertion-ordered map: distinct, exactly the elements of the input, no more of them than input elements |
| Common.IndexOf | src/main/kotlin/xyz/mishkun/lobzik/graph/GraphRoutine.kt:158 | the position of the first occurrence, or the length when the element does not occur |
| Common.IndexOfFirst | src/main/kotlin/xyz/mishkun/lobzik/graph/GraphRoutine.kt:158 | no position before the one found holds the element |
| Common.FirstOccurrencesOrder | src/main/kotlin/xyz/mishkun/lobzik/graph/GraphRoutine.kt:158 | the keys come in the order of their first occurrences in the input |
| Common.FirstOccurrencesRank | src/main/kotlin/xyz/mishkun/lobzik/graph/GraphRoutine.kt:158 | of two keys, the one listed first occurs first in the input |
| Sorting.Insert | src/main/kotlin/xyz/mishkun/lobzik/graph/GraphRoutine.kt:282 | one insertion step of the stable sort adds exactly the new element |
| Sorting.InsertSorted | src/main/kotlin/xyz/mishkun/lobzik/graph/GraphRoutine.kt:282 | inserting into a sorted sequence keeps it sorted |
| Sorting.SortBy | src/main/kotlin/xyz/mishkun/lobzik/graph/GraphRoutine.kt:282 | `sortedBy` returns a permutation of its input (the same multiset) |
| Sorting.SortStable | src/main/kotlin/xyz/mishkun/lobzik/graph/GraphRoutine.kt:180 | the sort is stable: of two distinct elements with equal keys, the one earlier in the input comes first |
| Sorting.StableThroughFirstOccurrences | src/main/kotlin/xyz/mishkun/lobzik/graph/GraphRoutine.kt:282 | stability with respect to the `groupBy` keys is stability with respect to the first occurrences in the grouped sequence |
| Sorting.SortFirstOccurrencesStable | src/main/kotlin/xyz/mishkun/lobzik/graph/GraphRoutine.kt:282 | sorting the `groupBy` keys puts equal keys in the order of their first occurrences |
| Sorting.InsertAt | src/main/kotlin/xyz/mishkun/lobzik/graph/GraphRoutine.kt:282 | inserting places the element at its insertion position and shifts the rest by one |
| Sorting.SortSorted | src/main/kotlin/xyz/mishkun/lobzik/graph/GraphRoutine.kt:282 | the result of `sortedBy` / `sortedByDescending` is in key order, with NaN as the largest key |
| Sorting.SortKeepsElements | src/main/kotlin/xyz/mishkun/lobzik/graph/GraphRoutine.kt:282 | sorting keeps the length and the elements, and keeps distinct inputs distinct |
| Sorting.InOrderTransitive | src/main/kotlin/xyz/mishkun/lobzik/graph/GraphRoutine.kt:282 | the `Double.compareTo` order used by the sort is transitive, NaN included |
| Bytecode.NameRunEnd | src/main/kotlin/xyz/mishkun/lobzik/moduleinfo/BytecodeAnalyzer.kt:11 | the greedy `[\w/$]+` run: every character up to the end belongs to the class, and the character at the end does not |
| Bytecode.DescriptorMatchAt | src/main/kotlin/xyz/mishkun/lobzik/moduleinfo/BytecodeAnalyzer.kt:11 | a match found at `i` is a whole `L\w[\w/$]+;` descriptor of at least four characters |
| Bytecode.DescriptorMatchAtComplete | src/main/kotlin/xyz/mishkun/lobzik/moduleinfo/BytecodeAnalyzer.kt:11 | whenever a descriptor starts at `i`, the scanner finds exactly it |
| Bytecode.DescriptorMatches | src/main/kotlin/xyz/mishkun/lobzik/moduleinfo/BytecodeAnalyzer.kt:95-99 | `findAll`: every match is a class descriptor that occurs in the text at or after the search start |
| Bytecode.DescriptorMatchesSkip | src/main/kotlin/xyz/mishkun/lobzik/moduleinfo/BytecodeAnalyzer.kt:11 | positions where no descriptor starts contribute no match |
| Bytecode.DescriptorMatchesNext | src/main/kotlin/xyz/mishkun/lobzik/moduleinfo/BytecodeAnalyzer.kt:11 | completeness: the leftmost descriptor at or after the search start is the next match, and the search resumes right after it |
| Bytecode.DescriptorMatchesNone | src/main/kotlin/xyz/mishkun/lobzik/moduleinfo/BytecodeAnalyzer.kt:11 | with no descriptor at or after the search start, `findAll` finds nothing |
| Bytecode.DescriptorMatchesItself | src/main/kotlin/xyz/mishkun/lobzik/moduleinfo/BytecodeAnalyzer.kt:11 | round trip: scanning a single descriptor yields that descriptor once |
| Bytecode.GroupCloseFrom | src/main/kotlin/xyz/mishkun/lobzik/moduleinfo/BytecodeAnalyzer.kt:10 | the lazy `.+?>`: the first `>` after the start with no line terminator before it |
| Bytecode.TypeGroups | src/main/kotlin/xyz/mishkun/lobzik/moduleinfo/BytecodeAnalyzer.kt:14-20 | every captured `<(.+?)>` group is non-empty and stands in the text right after a `<` |
| Bytecode.GroupCloseFromFinds | src/main/kotlin/xyz/mishkun/lobzik/moduleinfo/BytecodeAnalyzer.kt:10 | the lazy `.+?` stops at the first `>` when no line terminator comes before it |
| Bytecode.GroupCloseSpans | src/main/kotlin/xyz/mishkun/lobzik/moduleinfo/BytecodeAnalyzer.kt:10 | where the lazy group stops, `<(.+?)>` matches from the `<` to that `>` |
| Bytecode.TypeGroupsStep | src/main/kotlin/xyz/mishkun/lobzik/moduleinfo/BytecodeAnalyzer.kt:10 | a position where no group can start is passed over |
| Bytecode.TypeGroupsSkip | src/main/kotlin/xyz/mishkun/lobzik/moduleinfo/BytecodeAnalyzer.kt:14-20 | positions where no group starts contribute no group |
| Bytecode.TypeGroupsNext | src/main/kotlin/xyz/mishkun/lobzik/moduleinfo/BytecodeAnalyzer.kt:14-20 | completeness: the leftmost group at or after the search start, closed at its first `>`, is the next group captured, and the search resumes after that `>` |
| Bytecode.TypeGroupsNone | src/main/kotlin/xyz/mishkun/lobzik/moduleinfo/BytecodeAnalyzer.kt:14-20 | with no group at or after the search start, nothing is captured |
| Bytecode.GenericTypes | src/main/kotlin/xyz/mishkun/lobzik/moduleinfo/BytecodeAnalyzer.kt:22-24 | every generic type found is an object-type descriptor, and every descriptor match inside every captured group is one |
| Bytecode.GenericTypesAreGroupDescriptors | src/main/kotlin/xyz/mishkun/lobzik/moduleinfo/BytecodeAnalyzer.kt:22-24 | every generic type is a class descriptor that occurs in the signature after a `<` |
| Bytecode.GrowsTransitive | src/main/kotlin/xyz/mishkun/lobzik/moduleinfo/BytecodeAnalyzer.kt:31 | "only grows" composes over successive callbacks |
| Bytecode.Bump | src/main/kotlin/xyz/mishkun/lobzik/moduleinfo/BytecodeAnalyzer.kt:348 | `merge(key, 1, Int::plus)` keeps every key once, in insertion order, with a count of at least 1 |
| Bytecode.AddAll | src/main/kotlin/xyz/mishkun/lobzik/moduleinfo/BytecodeAnalyzer.kt:343-351 | a run of `addClass` calls leaves a well-formed map |
| Bytecode.CountedKeys | src/main/kotlin/xyz/mishkun/lobzik/moduleinfo/BytecodeAnalyzer.kt:343-351 | the keys a list of descriptors increments: at most one per descriptor |
| Bytecode.NonClassTypesIgnored | src/main/kotlin/xyz/mishkun/lobzik/moduleinfo/BytecodeAnalyzer.kt:343-346 | null, primitives, `[` arrays and `(` method descriptors leave the map unchanged and do not throw |
| Bytecode.AddClassEffect | src/main/kotlin/xyz/mishkun/lobzik/moduleinfo/BytecodeAnalyzer.kt:343-351 | a non-null argument that starts with `L` and has at least two characters is counted, exactly `"L"` throws in `substring(1, 0)`, and anything else is ignored |
| Bytecode.CountedKey | src/main/kotlin/xyz/mishkun/lobzik/moduleinfo/BytecodeAnalyzer.kt:347 | the key counted is the argument between its leading `L` and its last character |
| Bytecode.AddClassIncrementsKey | src/main/kotlin/xyz/mishkun/lobzik/moduleinfo/BytecodeAnalyzer.kt:347-348 | `addClass("L…;")` adds exactly 1 to the key without the first and last character (inserting 1 when absent) and changes nothing else |
| Bytecode.AddAllGrows | src/main/kotlin/xyz/mishkun/lobzik/moduleinfo/BytecodeAnalyzer.kt:343-351 | over any list of descriptors no key is removed or moved and no count decreases |
| Bytecode.AddAllOk | src/main/kotlin/xyz/mishkun/lobzik/moduleinfo/BytecodeAnalyzer.kt:347 | the calls complete exactly when no argument is the lone `L` that makes `substring(1, 0)` throw |
| Bytecode.AddAllCounts | src/main/kotlin/xyz/mishkun/lobzik/moduleinfo/BytecodeAnalyzer.kt:343-351 | each key's count grows by exactly the number of descriptors naming it |
| Bytecode.MatchDescriptors | src/main/kotlin/xyz/mishkun/lobzik/moduleinfo/BytecodeAnalyzer.kt:95-99 | every regex match handed to `addClass` is a class descriptor |
| Bytecode.WrappedKey | src/main/kotlin/xyz/mishkun/lobzik/moduleinfo/BytecodeAnalyzer.kt:153 | `"L$owner;"` is counted under the owner's name, and a null owner under `"null"` |
| Bytecode.TypeOperandCounted | src/main/kotlin/xyz/mishkun/lobzik/moduleinfo/BytecodeAnalyzer.kt:145-149 | an operand starting with `[` is passed through and never counted; any other operand is wrapped and counted once under its own name |
| Bytecode.InvokeDynamicCountsNothing | src/main/kotlin/xyz/mishkun/lobzik/moduleinfo/BytecodeAnalyzer.kt:174-182 | the whole `(`-prefixed descriptor goes to `addClass` and adds nothing |
| Bytecode.MatchKeys | src/main/kotlin/xyz/mishkun/lobzik/moduleinfo/BytecodeAnalyzer.kt:95-99 | a descriptor's regex matches never throw and each increments one key |
| Bytecode.CountedKeysOfDescriptors | src/main/kotlin/xyz/mishkun/lobzik/moduleinfo/BytecodeAnalyzer.kt:343-351 | class descriptors never throw and each increments one key |
| Bytecode.MethodDescriptorIncrements | src/main/kotlin/xyz/mishkun/lobzik/moduleinfo/BytecodeAnalyzer.kt:167-171 | a method descriptor adds one increment per `L\w[\w/$]+;` match and never throws |
| Bytecode.CountedWrapped | src/main/kotlin/xyz/mishkun/lobzik/moduleinfo/BytecodeAnalyzer.kt:65-67 | each wrapped interface name counts once, under its own name |
| Bytecode.WrappedNeverThrows | src/main/kotlin/xyz/mishkun/lobzik/moduleinfo/BytecodeAnalyzer.kt:65-67 | no wrapped interface name makes `addClass` throw |
| Bytecode.VisitHeaderCounts | src/main/kotlin/xyz/mishkun/lobzik/moduleinfo/BytecodeAnalyzer.kt:63-67 | `visit` counts the superclass once (a null superclass under `"null"`) and each interface once |
| Bytecode.AnnotationValueCounts | src/main/kotlin/xyz/mishkun/lobzik/moduleinfo/BytecodeAnalyzer.kt:291-297 | a String value counts its regex matches, a `Type` value its descriptor, and any other value nothing |
| Bytecode.GenericTypeStep | src/main/kotlin/xyz/mishkun/lobzik/moduleinfo/BytecodeAnalyzer.kt:80-82 | each further generic type of a field signature adds one to its own key |
| Bytecode.CountMap.constructor | src/main/kotlin/xyz/mishkun/lobzik/moduleinfo/BytecodeAnalyzer.kt:31 | the map starts empty |
| Bytecode.CountMap.AddClass | src/main/kotlin/xyz/mishkun/lobzik/moduleinfo/BytecodeAnalyzer.kt:343-351 | one `addClass` updates the map in place exactly as the value-level `AddAll` says |
| Bytecode.CountMap.AddEach | src/main/kotlin/xyz/mishkun/lobzik/moduleinfo/BytecodeAnalyzer.kt:65-67 | a `forEach { addClass(it) }` loop updates the map as `AddAll` says, stopping at the first exception, and the map only grows |
| Bytecode.CountMap.AddDescriptor | src/main/kotlin/xyz/mishkun/lobzik/moduleinfo/BytecodeAnalyzer.kt:347-348 | a class descriptor adds exactly one to its own key |
| Bytecode.CountMap.AddEachDescriptorOf | src/main/kotlin/xyz/mishkun/lobzik/moduleinfo/BytecodeAnalyzer.kt:80-82 | each generic type of the set adds exactly one to its key, and nothing throws |
| Bytecode.AnnotationAnalyzer.constructor | src/main/kotlin/xyz/mishkun/lobzik/moduleinfo/BytecodeAnalyzer.kt:261-265 | the visitor writes into the shared map at the given nesting level |
| Bytecode.AnnotationAnalyzer.Visit | src/main/kotlin/xyz/mishkun/lobzik/moduleinfo/BytecodeAnalyzer.kt:281-298 | the shared map receives exactly the value's descriptors |
| Bytecode.AnnotationAnalyzer.VisitEnum | src/main/kotlin/xyz/mishkun/lobzik/moduleinfo/BytecodeAnalyzer.kt:300-303 | the enum's descriptor is counted |
| Bytecode.AnnotationAnalyzer.VisitAnnotation | src/main/kotlin/xyz/mishkun/lobzik/moduleinfo/BytecodeAnalyzer.kt:305-309 | the descriptor is counted, and the nested visitor is new, one level deeper, and shares the same map |
| Bytecode.AnnotationAnalyzer.VisitArray | src/main/kotlin/xyz/mishkun/lobzik/moduleinfo/BytecodeAnalyzer.kt:311-314 | nothing is counted, and the nested visitor shares the same map |
| Bytecode.FieldAnalyzer.constructor | src/main/kotlin/xyz/mishkun/lobzik/moduleinfo/BytecodeAnalyzer.kt:317-322 | the field visitor and its annotation visitor share the class's map |
| Bytecode.FieldAnalyzer.VisitAnnotation | src/main/kotlin/xyz/mishkun/lobzik/moduleinfo/BytecodeAnalyzer.kt:336-340 | the descriptor is counted, and the annotation visitor is handed out |
| Bytecode.MethodAnalyzer.constructor | src/main/kotlin/xyz/mishkun/lobzik/moduleinfo/BytecodeAnalyzer.kt:124-129 | the method visitor and its annotation visitor share the class's map |
| Bytecode.MethodAnalyzer.VisitTypeInsn | src/main/kotlin/xyz/mishkun/lobzik/moduleinfo/BytecodeAnalyzer.kt:145-149 | the operand rule is applied and its descriptor counted |
| Bytecode.MethodAnalyzer.VisitFieldInsn | src/main/kotlin/xyz/mishkun/lobzik/moduleinfo/BytecodeAnalyzer.kt:151-155 | the wrapped owner is counted, then the field's descriptor |
| Bytecode.MethodAnalyzer.VisitMethodInsn | src/main/kotlin/xyz/mishkun/lobzik/moduleinfo/BytecodeAnalyzer.kt:157-172 | the owner is counted by the operand rule, then each descriptor match |
| Bytecode.MethodAnalyzer.VisitInvokeDynamicInsn | src/main/kotlin/xyz/mishkun/lobzik/moduleinfo/BytecodeAnalyzer.kt:174-182 | the whole descriptor goes to `addClass` |
| Bytecode.MethodAnalyzer.VisitLocalVariable | src/main/kotlin/xyz/mishkun/lobzik/moduleinfo/BytecodeAnalyzer.kt:184-194 | the variable's descriptor is counted |
| Bytecode.MethodAnalyzer.VisitAnyAnnotation | src/main/kotlin/xyz/mishkun/lobzik/moduleinfo/BytecodeAnalyzer.kt:196-258 | the six annotation callbacks count the descriptor and hand out the method's annotation visitor |
| Bytecode.MethodAnalyzer.VisitTryCatchBlock | src/main/kotlin/xyz/mishkun/lobzik/moduleinfo/BytecodeAnalyzer.kt:244-247 | the wrapped exception type is counted (a null type, for `finally`, under `"null"`) |
| Bytecode.ClassAnalyzer.constructor | src/main/kotlin/xyz/mishkun/lobzik/moduleinfo/BytecodeAnalyzer.kt:27-35 | a new empty map, shared by the method, field and annotation visitors; no source and no class name yet |
| Bytecode.ClassAnalyzer.VisitSource | src/main/kotlin/xyz/mishkun/lobzik/moduleinfo/BytecodeAnalyzer.kt:49-52 | records the source file name and changes nothing else |
| Bytecode.ClassAnalyzer.Visit | src/main/kotlin/xyz/mishkun/lobzik/moduleinfo/BytecodeAnalyzer.kt:54-68 | sets `className`, then counts the superclass and the interfaces |
| Bytecode.ClassAnalyzer.VisitField | src/main/kotlin/xyz/mishkun/lobzik/moduleinfo/BytecodeAnalyzer.kt:70-84 | counts the field descriptor, then each generic type of the signature once |
| Bytecode.ClassAnalyzer.VisitMethod | src/main/kotlin/xyz/mishkun/lobzik/moduleinfo/BytecodeAnalyzer.kt:86-102 | counts each descriptor match, never throws, and hands out the method visitor |
| Bytecode.ClassAnalyzer.VisitAnyAnnotation | src/main/kotlin/xyz/mishkun/lobzik/moduleinfo/BytecodeAnalyzer.kt:104-119 | counts the annotation's descriptor and hands out the annotation visitor |
| Bytecode.Replay | src/main/kotlin/xyz/mishkun/lobzik/moduleinfo/BytecodeAnalyzer.kt:27-124 | over any sequence of callbacks the shared map only grows: no key is lost or moved, no count decreases, and every count stays at least 1 |
| ClassDependencies.FilterToClassFiles | src/main/kotlin/xyz/mishkun/lobzik/dependencies/perproject/LobzikProjectDependencyGraphTask.kt:95-99 | keeps exactly the regular files named `*.class` other than `module-info.class`; the class-listing task has the same code at `src/main/kotlin/xyz/mishkun/lobzik/moduleinfo/LobzikListProjectClassesTask.kt:84-88` |
| ClassDependencies.FilterToClassFilesAppend | src/main/kotlin/xyz/mishkun/lobzik/dependencies/perproject/LobzikProjectDependencyGraphTask.kt:95-99 | the filter keeps the original order: filtering a concatenation gives the two filtered parts concatenated |
| ClassDependencies.FilterToClassFilesEntry | src/main/kotlin/xyz/mishkun/lobzik/dependencies/perproject/LobzikProjectDependencyGraphTask.kt:95-99 | a single file is kept exactly when it is a regular class file |
| ClassDependencies.DependenciesOf | src/main/kotlin/xyz/mishkun/lobzik/dependencies/perproject/LobzikProjectDependencyGraphTask.kt:72-79 | every row has the file's source, an in-scope target that is some key's canonical form, and that key's count; every in-scope key yields its row |
| ClassDependencies.DependenciesOfAppend | src/main/kotlin/xyz/mishkun/lobzik/dependencies/perproject/LobzikProjectDependencyGraphTask.kt:72-79 | rows follow the map's insertion order: the keys of two parts of the order give their rows one after the other; the class-listing task has the same code at `src/main/kotlin/xyz/mishkun/lobzik/moduleinfo/LobzikListProjectClassesTask.kt:66-72` |
| ClassDependencies.DependenciesOfEntry | src/main/kotlin/xyz/mishkun/lobzik/dependencies/perproject/LobzikProjectDependencyGraphTask.kt:72-79 | one map entry gives exactly one row with its own count when its canonical target is in scope, and none otherwise, so rows are never merged |
| ClassDependencies.EveryEntryKept | src/main/kotlin/xyz/mishkun/lobzik/moduleinfo/LobzikListProjectClassesTask.kt:66-73 | nothing is merged at this stage: when every target is in scope there is one row per map entry |
| ClassDependencies.FileDependencies | src/main/kotlin/xyz/mishkun/lobzik/dependencies/perproject/LobzikProjectDependencyGraphTask.kt:70-82 | a file whose canonical source fails `isOk` contributes nothing; every other row has that source and both ends in scope |
| ClassDependencies.ParseClassDependencies | src/main/kotlin/xyz/mishkun/lobzik/dependencies/perproject/LobzikProjectDependencyGraphTask.kt:62-84 | every produced dependency has both ends passing `isOk` and a source that is some file's canonical class name |
| ClassDependencies.ParseAppend | src/main/kotlin/xyz/mishkun/lobzik/moduleinfo/LobzikListProjectClassesTask.kt:47-53 | the rows come out file by file in production order: parsing concatenated file lists concatenates the results |
| ClassDependencies.RejectedSourceContributesNothing | src/main/kotlin/xyz/mishkun/lobzik/dependencies/perproject/LobzikProjectDependencyGraphTask.kt:71-82 | a file whose canonical source fails `isOk` can be removed from any position without changing the rows; the class-listing task has the same code at `src/main/kotlin/xyz/mishkun/lobzik/moduleinfo/LobzikListProjectClassesTask.kt:65-76` |
| ClassDependencies.SingleFile | src/main/kotlin/xyz/mishkun/lobzik/dependencies/perproject/LobzikProjectDependencyGraphTask.kt:64-83 | parsing one file gives exactly that file's contribution |
| ClassDependencies.EntryYieldsDependency | src/main/kotlin/xyz/mishkun/lobzik/moduleinfo/LobzikListProjectClassesTask.kt:66-72 | every in-scope entry of an in-scope file yields a row carrying exactly the analyzer's count |
| ProjectDependencyGraph.Canonicalize | src/main/kotlin/xyz/mishkun/lobzik/dependencies/perproject/LobzikProjectDependencyGraphTask.kt:92-93 | the canonical name holds no `/` and no `$` and is no longer than the input |
| ProjectDependencyGraph.CanonicalizeCutsAtFirstDollar | src/main/kotlin/xyz/mishkun/lobzik/dependencies/perproject/LobzikProjectDependencyGraphTask.kt:92-93 | replacing and then cutting at `$` equals cutting at `$` and then replacing |
| ProjectDependencyGraph.InnerClassCollapses | src/main/kotlin/xyz/mishkun/lobzik/dependencies/perproject/LobzikProjectDependencyGraphTask.kt:92-93 | `Outer$Inner` canonicalises to the same name as `Outer` |
| ProjectDependencyGraph.CanonicalizeIdempotent | src/main/kotlin/xyz/mishkun/lobzik/dependencies/perproject/LobzikProjectDependencyGraphTask.kt:92-93 | canonicalising twice equals canonicalising once |
| ProjectDependencyGraph.SimpleName | src/main/kotlin/xyz/mishkun/lobzik/dependencies/perproject/LobzikProjectDependencyGraphTask.kt:89-90 | the simple name holds no `.` and no `<`, and is a suffix of the part of the name before its first `<` |
| ProjectDependencyGraph.Parse | src/main/kotlin/xyz/mishkun/lobzik/dependencies/perproject/LobzikProjectDependencyGraphTask.kt:62-87 | every row has both ends passing `isOk` (prefix, and no deny pattern on the simple name) and free of `$` |
| ProjectDependencyGraph.ParsedTargetIsCanonical | src/main/kotlin/xyz/mishkun/lobzik/dependencies/perproject/LobzikProjectDependencyGraphTask.kt:73-78 | every target is the canonical form of some analyzer key |
| ProjectDependencyGraph.SelfDependencyKept | src/main/kotlin/xyz/mishkun/lobzik/dependencies/perproject/LobzikProjectDependencyGraphTask.kt:70-78 | a class's reference to its own inner class becomes a self-dependency, which is kept |
| ProjectDependencyGraph.Keys | src/main/kotlin/xyz/mishkun/lobzik/dependencies/perproject/LobzikProjectDependencyGraphTask.kt:58 | the `name to dependsOn` grouping key of each row, in order |
| ProjectDependencyGraph.Merged | src/main/kotlin/xyz/mishkun/lobzik/dependencies/perproject/LobzikProjectDependencyGraphTask.kt:59 | one row per group key, carrying the sum of that group's `times` |
| ProjectDependencyGraph.FlattenClasses | src/main/kotlin/xyz/mishkun/lobzik/dependencies/perproject/LobzikProjectDependencyGraphTask.kt:57-60 | the (name, dependsOn) pairs are unique and are exactly the input's pairs, each weighted by the sum of its input `times` |
| ProjectDependencyGraph.TotalOfMerged | src/main/kotlin/xyz/mishkun/lobzik/dependencies/perproject/LobzikProjectDependencyGraphTask.kt:59 | the merged rows weigh what their groups weigh |
| ProjectDependencyGraph.TimesOfAbsent | src/main/kotlin/xyz/mishkun/lobzik/dependencies/perproject/LobzikProjectDependencyGraphTask.kt:59 | a pair no row carries sums to 0 |
| ProjectDependencyGraph.SumOverAppend | src/main/kotlin/xyz/mishkun/lobzik/dependencies/perproject/LobzikProjectDependencyGraphTask.kt:58-59 | one more row adds its weight to its own group |
| ProjectDependencyGraph.SumOverFirstOccurrences | src/main/kotlin/xyz/mishkun/lobzik/dependencies/perproject/LobzikProjectDependencyGraphTask.kt:58-59 | summing over the distinct keys gives the total weight |
| ProjectDependencyGraph.FlattenPreservesTotal | src/main/kotlin/xyz/mishkun/lobzik/dependencies/perproject/LobzikProjectDependencyGraphTask.kt:57-60 | flattening preserves the total weight |
| ProjectDependencyGraph.FlattenedRowHasOrigin | src/main/kotlin/xyz/mishkun/lobzik/dependencies/perproject/LobzikProjectDependencyGraphTask.kt:57-60 | every merged row stands for at least one input row with the same pair |
| ProjectDependencyGraph.ProjectDependencies | src/main/kotlin/xyz/mishkun/lobzik/dependencies/perproject/LobzikProjectDependencyGraphTask.kt:40-55 | the written rows have unique pairs, both ends in scope and free of `$`, and the same total weight as the parsed rows |
| ListProjectClasses.Canonicalize | src/main/kotlin/xyz/mishkun/lobzik/moduleinfo/LobzikListProjectClassesTask.kt:82 | same length, no `/`, and `$` exactly where the input has it |
| ListProjectClasses.GraphNameIsPrefixOfListedName | src/main/kotlin/xyz/mishkun/lobzik/moduleinfo/LobzikListProjectClassesTask.kt:82 | the per-project graph's name of a class is a prefix of this task's name for it |
| ListProjectClasses.InnerClassKept | src/main/kotlin/xyz/mishkun/lobzik/moduleinfo/LobzikListProjectClassesTask.kt:82 | `Outer$Inner` keeps its `$` and its inner part |
| ListProjectClasses.Parse | src/main/kotlin/xyz/mishkun/lobzik/moduleinfo/LobzikListProjectClassesTask.kt:56-80 | every row has both ends passing `isOk` (prefix, and no deny pattern on the full name) and free of `/`; the rows are one per in-scope map entry, in file order and map order, through `ParseAppend`, `SingleFile`, `DependenciesOfAppend` and `DependenciesOfEntry` |
| ListProjectClasses.InnerClassDependencyListed | src/main/kotlin/xyz/mishkun/lobzik/moduleinfo/LobzikListProjectClassesTask.kt:64-73 | a reference to an in-scope inner class is listed under the inner class's own name, with the analyzer's count |
| ListProjectClasses.ZipClassEntries | src/main/kotlin/xyz/mishkun/lobzik/moduleinfo/LobzikListProjectClassesTask.kt:92-96 | keeps exactly the archive entries named `*.class` other than `module-info.class` |
| ListProjectClasses.ZipAndTreeFiltersAgree | src/main/kotlin/xyz/mishkun/lobzik/moduleinfo/LobzikListProjectClassesTask.kt:84-96 | for regular files the archive filter and the file-tree filter keep the same names in the same order |
| Aggregate.ModuleId | src/main/kotlin/xyz/mishkun/lobzik/dependencies/aggregate/LobzikAggregateDependenciesTask.kt:31 | the module id is the file name before the first `_dependency_graph`, or the whole name when the marker is absent |
| Aggregate.ModuleIdOfArtifact | src/main/kotlin/xyz/mishkun/lobzik/dependencies/aggregate/LobzikAggregateDependenciesTask.kt:31 | for any module name without `_` and any extension, the file `<module>_dependency_graph<extension>` belongs to that module |
| Aggregate.Aggregated | src/main/kotlin/xyz/mishkun/lobzik/dependencies/aggregate/LobzikAggregateDependenciesTask.kt:29-33 | as many tagged rows as input rows in all files, each tagged with the module id of a file that holds that row |
| Aggregate.AggregatedAt | src/main/kotlin/xyz/mishkun/lobzik/dependencies/aggregate/LobzikAggregateDependenciesTask.kt:29-33 | row `i` of file `j` stands at position (rows of the files before `j`) + `i`, tagged with file `j`'s own module id |
| Aggregate.NodeOf | src/main/kotlin/xyz/mishkun/lobzik/dependencies/aggregate/LobzikAggregateDependenciesTask.kt:36-39 | a node's label is the part of its id after the last `.` (or the whole id), and is absent exactly when the id is |
| Aggregate.NodeRows | src/main/kotlin/xyz/mishkun/lobzik/dependencies/aggregate/LobzikAggregateDependenciesTask.kt:36-40 | the node rows are exactly the (module, Source) pairs of the input rows, as a set |
| Aggregate.NodeRowsBound | src/main/kotlin/xyz/mishkun/lobzik/dependencies/aggregate/LobzikAggregateDependenciesTask.kt:36-38 | there are never more node rows than input rows |
| Aggregate.SameSourceTwoModules | src/main/kotlin/xyz/mishkun/lobzik/dependencies/aggregate/LobzikAggregateDependenciesTask.kt:36-38 | the same class seen in two modules gives two node rows with the same Id |
| Aggregate.EdgeRows | src/main/kotlin/xyz/mishkun/lobzik/dependencies/aggregate/LobzikAggregateDependenciesTask.kt:42-47 | one edge row per input row, in input order, with Source, Target and Weight copied |
| Aggregate.EdgeSourcesAreNodes | src/main/kotlin/xyz/mishkun/lobzik/dependencies/aggregate/LobzikAggregateDependenciesTask.kt:36-46 | each edge's Source is the Id of a node row of the same input row |
| Aggregate.EdgesIgnoreFileNames | src/main/kotlin/xyz/mishkun/lobzik/dependencies/aggregate/LobzikAggregateDependenciesTask.kt:29-46 | the edge rows depend only on the rows, not on the file names |
| Aggregate.EdgeRowsAppend | src/main/kotlin/xyz/mishkun/lobzik/dependencies/aggregate/LobzikAggregateDependenciesTask.kt:44-46 | the edge rows of two row lists are concatenated in order |
| Aggregate.Aggregate | src/main/kotlin/xyz/mishkun/lobzik/dependencies/aggregate/LobzikAggregateDependenciesTask.kt:28-48 | the edge rows number exactly the input rows of all files, and row `i` of file `j` is copied unchanged to the edge at position (rows of the files before `j`) + `i`; the node rows are exactly the set of (module id of `f`, Source of `row`) nodes over every file `f` and row `row` of it, and number at most the input rows |
| Aggregate.EdgesOfFiles | src/main/kotlin/xyz/mishkun/lobzik/dependencies/aggregate/LobzikAggregateDependenciesTask.kt:42-46 | every input row is copied to the edge at its position in file order and row order |
| Aggregate.EdgeAt | src/main/kotlin/xyz/mishkun/lobzik/dependencies/aggregate/LobzikAggregateDependenciesTask.kt:44-45 | row `i` of file `j` gives the edge with that row's Source, Target and Weight at its aggregated position |
| Aggregate.NodesOfFiles | src/main/kotlin/xyz/mishkun/lobzik/dependencies/aggregate/LobzikAggregateDependenciesTask.kt:29-40 | the node set is exactly the nodes of all rows of all files, each under its own file's module id |
| Smali.Join | apk-dependency-graph-builder/src/main/java/com/alex_zaitsev/adg/SmaliAnalyzer.java:179 | the recursive scan and the rest both succeed, or the line fails |
| Smali.ClassNames | apk-dependency-graph-builder/src/main/java/com/alex_zaitsev/adg/SmaliAnalyzer.java:163-192 | every name the scanner adds is text of the allowed characters, read at an `L` in the line, up to the next `;` or cut before a `<` |
| Smali.ScanFromReads | apk-dependency-graph-builder/src/main/java/com/alex_zaitsev/adg/SmaliAnalyzer.java:164-191 | from any `L`, the names collected are read in the line |
| Smali.ScanGenericReads | apk-dependency-graph-builder/src/main/java/com/alex_zaitsev/adg/SmaliAnalyzer.java:173-181 | the generic branch collects only names read in the line, its arguments included |
| Smali.ReadJoin | apk-dependency-graph-builder/src/main/java/com/alex_zaitsev/adg/SmaliAnalyzer.java:179 | pooling the recursive scan's names reads nothing new |
| Smali.ReadShift | apk-dependency-graph-builder/src/main/java/com/alex_zaitsev/adg/SmaliAnalyzer.java:178 | names read in the generic substring are read in the line |
| Smali.NameAtWhole | apk-dependency-graph-builder/src/main/java/com/alex_zaitsev/adg/SmaliAnalyzer.java:171 | the candidate is the text between the `L` and the next `;` |
| Smali.NameAtPrefix | apk-dependency-graph-builder/src/main/java/com/alex_zaitsev/adg/SmaliAnalyzer.java:181 | the truncated name is the text before the `<` |
| Smali.NameAtShift | apk-dependency-graph-builder/src/main/java/com/alex_zaitsev/adg/SmaliAnalyzer.java:178 | positions in the generic substring map to positions in the line |
| Smali.ScanStops | apk-dependency-graph-builder/src/main/java/com/alex_zaitsev/adg/SmaliAnalyzer.java:166-169 | with no `;` after the `L` the scan ends with nothing more added |
| Smali.ScanSkips | apk-dependency-graph-builder/src/main/java/com/alex_zaitsev/adg/SmaliAnalyzer.java:185-188 | a candidate with another character is skipped, and the scan resumes at the next `L` after the current index |
| Smali.ScanThrowsOnTrailingBracket | apk-dependency-graph-builder/src/main/java/com/alex_zaitsev/adg/SmaliAnalyzer.java:174 | a candidate ending in its first `<` makes `charAt` throw and loses the line |
| Smali.ScanEntersGeneric | apk-dependency-graph-builder/src/main/java/com/alex_zaitsev/adg/SmaliAnalyzer.java:174-181 | a `<L` recurses into the generic text, adds the name before `<`, and resumes at the next `L` after the generic's end; an out-of-range end throws |
| Smali.ScanReadsName | apk-dependency-graph-builder/src/main/java/com/alex_zaitsev/adg/SmaliAnalyzer.java:182-190 | any other valid candidate is added whole and the scan resumes at the next `L` from the `;` |
| Smali.GenericStep | apk-dependency-graph-builder/src/main/java/com/alex_zaitsev/adg/SmaliAnalyzer.java:174-181 | after the generic arguments are scanned into the collected names, the scan goes on with the name cut before `<` added |
| Smali.NameStep | apk-dependency-graph-builder/src/main/java/com/alex_zaitsev/adg/SmaliAnalyzer.java:182-190 | a plain candidate joins the collected names and the scan goes on from the `;` |
| Smali.JoinShift | apk-dependency-graph-builder/src/main/java/com/alex_zaitsev/adg/SmaliAnalyzer.java:190 | names already added can be moved across the pooling of later scans |
| Smali.MergeAll | apk-dependency-graph-builder/src/main/java/com/alex_zaitsev/adg/SmaliAnalyzer.java:201-203 | merging with `Integer::sum` keeps the keys of both maps and adds their counts |
| Smali.AddedToCounts | apk-dependency-graph-builder/src/main/java/com/alex_zaitsev/adg/SmaliAnalyzer.java:194-205 | after `addDependencies(c, L)` each count of `c` is the old count (0 if absent) plus `L`'s, and every other class is unchanged |
| Smali.SameCounts | apk-dependency-graph-builder/src/main/java/com/alex_zaitsev/adg/SmaliAnalyzer.java:201-203 | two count maps with the same keys and counts are equal |
| Smali.WithoutInner | apk-dependency-graph-builder/src/main/java/com/alex_zaitsev/adg/SmaliAnalyzer.java:211-216 | keeps exactly the dependencies without `$`, with their counts |
| Smali.FilteredView | apk-dependency-graph-builder/src/main/java/com/alex_zaitsev/adg/SmaliAnalyzer.java:207-223 | keeps exactly the `$`-free classes with a non-empty `$`-free dependency map |
| Smali.FilteredViewProperties | apk-dependency-graph-builder/src/main/java/com/alex_zaitsev/adg/SmaliAnalyzer.java:209-219 | no key or dependency holds `$`, it is a sub-map with identical counts, no kept map is empty, and every `$`-free pair of the original is kept |
| Smali.SmaliAnalyzer.constructor | apk-dependency-graph-builder/src/main/java/com/alex_zaitsev/adg/SmaliAnalyzer.java:33-43 | records the settings and starts with an empty dependency map |
| Smali.SmaliAnalyzer.LineCounts | apk-dependency-graph-builder/src/main/java/com/alex_zaitsev/adg/SmaliAnalyzer.java:123-130 | a line counts each simple name once per distinct full name that passes the filters; every key passes the filters and is counted at least once |
| Smali.SmaliAnalyzer.LinesCountsKept | apk-dependency-graph-builder/src/main/java/com/alex_zaitsev/adg/SmaliAnalyzer.java:116-133 | the counts of a file's lines hold only names that pass the class filter, are neither anonymous nor generated, and are neither the file's class nor the class being read, each counted at least once |
| Smali.SmaliAnalyzer.FileNameOfFile | apk-dependency-graph-builder/src/main/java/com/alex_zaitsev/adg/SmaliAnalyzer.java:99-103 | for a file `base.ext` with no `.` in `ext` the file name is `base`, or its nearest outer class when `base` is anonymous |
| Smali.SmaliAnalyzer.ThisClassName | apk-dependency-graph-builder/src/main/java/com/alex_zaitsev/adg/SmaliAnalyzer.java:109-112 | as many characters as the path below the project directory without `.smali`, and no `/` left |
| Smali.SmaliAnalyzer.ThisClassNameOfFile | apk-dependency-graph-builder/src/main/java/com/alex_zaitsev/adg/SmaliAnalyzer.java:109-112 | for `<project>/<relative>.smali` the class name is the relative path with every `/` replaced by `.` |
| Smali.SmaliAnalyzer.FileCounts | apk-dependency-graph-builder/src/main/java/com/alex_zaitsev/adg/SmaliAnalyzer.java:116-139 | an inner-class file adds one to its outer class's count and leaves every other count as its lines give it; a file that is not an inner class stores exactly its lines' counts |
| Smali.SmaliAnalyzer.ParseAndAddClassNames | apk-dependency-graph-builder/src/main/java/com/alex_zaitsev/adg/SmaliAnalyzer.java:163-192 | the index-driven loop adds exactly the scanner's names, or fails as the Java code throws |
| Smali.SmaliAnalyzer.AddClassName | apk-dependency-graph-builder/src/main/java/com/alex_zaitsev/adg/SmaliAnalyzer.java:172-190 | one pass over a valid candidate adds what the scanner adds from that `L` and resumes at a later `L`, or fails exactly when the scan throws |
| Smali.SmaliAnalyzer.CountLine | apk-dependency-graph-builder/src/main/java/com/alex_zaitsev/adg/SmaliAnalyzer.java:123-130 | the loop over a line's names merges exactly that line's counts |
| Smali.SmaliAnalyzer.CountsStep | apk-dependency-graph-builder/src/main/java/com/alex_zaitsev/adg/SmaliAnalyzer.java:126-127 | one more name keeps the loop invariant |
| Smali.SmaliAnalyzer.CountsDone | apk-dependency-graph-builder/src/main/java/com/alex_zaitsev/adg/SmaliAnalyzer.java:123-130 | at the end of the loop the counts are the merged line counts |
| Smali.SmaliAnalyzer.CountName | apk-dependency-graph-builder/src/main/java/com/alex_zaitsev/adg/SmaliAnalyzer.java:124-128 | a name counts once under its simple name when the path, class and `isClassOk` filters accept it and it is not the file's own class; otherwise nothing changes |
| Smali.SmaliAnalyzer.HitsStep | apk-dependency-graph-builder/src/main/java/com/alex_zaitsev/adg/SmaliAnalyzer.java:123-128 | one more distinct name adds one hit to its own simple name only |
| Smali.SmaliAnalyzer.AddDependencies | apk-dependency-graph-builder/src/main/java/com/alex_zaitsev/adg/SmaliAnalyzer.java:194-205 | stores the list for a new class, otherwise merges it into the existing map |
| Smali.SmaliAnalyzer.MergeInto | apk-dependency-graph-builder/src/main/java/com/alex_zaitsev/adg/SmaliAnalyzer.java:201-203 | the `merge` loop over the new list's keys yields the summed map |
| Smali.SmaliAnalyzer.MergeDone | apk-dependency-graph-builder/src/main/java/com/alex_zaitsev/adg/SmaliAnalyzer.java:201-203 | a map with both key sets and summed counts is the merge |
| Smali.SmaliAnalyzer.ProcessSmaliFile | apk-dependency-graph-builder/src/main/java/com/alex_zaitsev/adg/SmaliAnalyzer.java:96-149 | a file rejected by the class filter, or with no counts, changes nothing; otherwise its counts are added under its dotted class name |
| Smali.SmaliAnalyzer.CountFile | apk-dependency-graph-builder/src/main/java/com/alex_zaitsev/adg/SmaliAnalyzer.java:116-139 | the loop over the lines yields the file's counts; a line whose scan throws adds nothing |
| Smali.SmaliAnalyzer.ProcessLine | apk-dependency-graph-builder/src/main/java/com/alex_zaitsev/adg/SmaliAnalyzer.java:117-133 | one line's counts are merged into the file's counts, or nothing changes when the scan of the line throws |
| Smali.FilteredOfAdd | apk-dependency-graph-builder/src/main/java/com/alex_zaitsev/adg/SmaliAnalyzer.java:207-223 | the view over one more class gains that class exactly when it is kept, and the view over all classes is the `$`-free view |
| Smali.SmaliAnalyzer.GetFilteredDependencies | apk-dependency-graph-builder/src/main/java/com/alex_zaitsev/adg/SmaliAnalyzer.java:207-223 | the nested loops build exactly the `$`-free view |
| Smali.SmaliAnalyzer.InnerFree | apk-dependency-graph-builder/src/main/java/com/alex_zaitsev/adg/SmaliAnalyzer.java:211-216 | the inner loop keeps exactly the `$`-free dependencies with their counts |
| Smali.SmaliAnalyzer.GetDependencies | apk-dependency-graph-builder/src/main/java/com/alex_zaitsev/adg/SmaliAnalyzer.java:45-50 | the unfiltered map exactly when `filters` is null or processes inner classes, the `$`-free view otherwise |
| Graph.AnyMatches | src/main/kotlin/xyz/mishkun/lobzik/graph/GraphRoutine.kt:237 | some feature pattern fully matches the value |
| Graph.FilterMonolithOrFeatures | src/main/kotlin/xyz/mishkun/lobzik/graph/GraphRoutine.kt:236-237 | holds exactly when the value is the monolith id or some feature pattern fully matches it; the second report has the same code at `graph-processing/src/main/kotlin/xyz/mishkun/lobzik/graph/GraphRoutine.kt:243-244` |
| Graph.Members | src/main/kotlin/xyz/mishkun/lobzik/graph/GraphRoutine.kt:157-158 | a community's group holds exactly the visible nodes of that community |
| Graph.Communities | src/main/kotlin/xyz/mishkun/lobzik/graph/GraphRoutine.kt:158 | the community of each visible node, position by position |
| Graph.CommunityKeys | src/main/kotlin/xyz/mishkun/lobzik/graph/GraphRoutine.kt:157-158 | the group keys are distinct, are exactly the communities of the visible nodes, and come in the order in which each community's first member stands in the view |
| Graph.GroupsPartition | src/main/kotlin/xyz/mishkun/lobzik/graph/GraphRoutine.kt:157-158 | every group is non-empty and every visible node lies in its own community's group; the second report has the same code at `graph-processing/src/main/kotlin/xyz/mishkun/lobzik/graph/GraphRoutine.kt:171` |
| Graph.OutEdges | src/main/kotlin/xyz/mishkun/lobzik/graph/GraphRoutine.kt:249 | `getOutEdges(n)`: exactly the edges leaving `n` |
| Graph.MembersOutEdges | src/main/kotlin/xyz/mishkun/lobzik/graph/GraphRoutine.kt:249 | exactly the edges leaving some member |
| Graph.CutPairs | src/main/kotlin/xyz/mishkun/lobzik/graph/GraphRoutine.kt:342-344 | exactly the label pairs of the edges to a non-member in the monolith |
| Graph.DependenciesCuts | src/main/kotlin/xyz/mishkun/lobzik/graph/GraphRoutine.kt:340-358 | exactly the (source label, target label) pairs of out-edges from members to non-members of the monolith; empty exactly when no such edge exists; the second report has the same code at `graph-processing/src/main/kotlin/xyz/mishkun/lobzik/graph/GraphRoutine.kt:327-345` |
| Graph.EndpointsSpec | src/main/kotlin/xyz/mishkun/lobzik/graph/GraphRoutine.kt:628 | a node is an endpoint exactly when some edge touching the set ends at it |
| Graph.NodeCollectionFilter.constructor | src/main/kotlin/xyz/mishkun/lobzik/graph/GraphRoutine.kt:625-626 | records the node set; the neighbourhood is not computed yet |
| Graph.NodeCollectionFilter.Init | src/main/kotlin/xyz/mishkun/lobzik/graph/GraphRoutine.kt:627-631 | computes the graph's neighbourhood, which is disjoint from the set, and answers whether the graph has a node; the second report has the same code at `graph-processing/src/main/kotlin/xyz/mishkun/lobzik/graph/GraphRoutine.kt:414-419` |
| Graph.NodeCollectionFilter.Evaluate | src/main/kotlin/xyz/mishkun/lobzik/graph/GraphRoutine.kt:633-635 | accepts exactly the nodes of the set and the endpoints of edges touching it; the second report has the same code at `graph-processing/src/main/kotlin/xyz/mishkun/lobzik/graph/GraphRoutine.kt:421-423` |
| Labels.Tokens | src/main/kotlin/xyz/mishkun/lobzik/graph/GraphRoutine.kt:161 | `split` keeps at least one piece |
| Labels.TokensUpTo | src/main/kotlin/xyz/mishkun/lobzik/graph/GraphRoutine.kt:161 | the tokens of a prefix: at least one, and for a non-empty prefix the last token is non-empty and ends with the prefix's last character |
| Labels.TokensConcat | src/main/kotlin/xyz/mishkun/lobzik/graph/GraphRoutine.kt:161 | concatenating the tokens gives back the label; the second report has the same code at `graph-processing/src/main/kotlin/xyz/mishkun/lobzik/graph/GraphRoutine.kt:174` |
| Labels.TokensUpToConcat | src/main/kotlin/xyz/mishkun/lobzik/graph/GraphRoutine.kt:161 | concatenating the tokens of a prefix gives back the prefix |
| Labels.ConcatOpens | src/main/kotlin/xyz/mishkun/lobzik/graph/GraphRoutine.kt:161 | a character that opens a new token is appended to the concatenation |
| Labels.ConcatGrows | src/main/kotlin/xyz/mishkun/lobzik/graph/GraphRoutine.kt:161 | a character that extends the last token is appended to the concatenation |
| Labels.CutOpens | src/main/kotlin/xyz/mishkun/lobzik/graph/GraphRoutine.kt:161 | an uppercase letter after a non-terminator opens a token that is cut at a match |
| Labels.CutExtends | src/main/kotlin/xyz/mishkun/lobzik/graph/GraphRoutine.kt:161 | any other character extends the last token without creating a match inside it |
| Labels.TokensUpToCut | src/main/kotlin/xyz/mishkun/lobzik/graph/GraphRoutine.kt:161 | the tokens of every prefix are cut exactly at matches |
| Labels.CutSingle | src/main/kotlin/xyz/mishkun/lobzik/graph/GraphRoutine.kt:161 | a label of at most one character is one token with no match inside |
| Labels.TokensAreSplitAtMatches | src/main/kotlin/xyz/mishkun/lobzik/graph/GraphRoutine.kt:161 | every token after the first starts with an uppercase letter preceded by a non-terminator, and no token has a match inside it |
| Labels.AllTokens | src/main/kotlin/xyz/mishkun/lobzik/graph/GraphRoutine.kt:161 | every token comes from some member's label |
| Labels.SumCountsBump | src/main/kotlin/xyz/mishkun/lobzik/graph/GraphRoutine.kt:162 | one more `merge` adds one to the sum over distinct keys |
| Labels.TfTotal | src/main/kotlin/xyz/mishkun/lobzik/graph/GraphRoutine.kt:160-163 | the tf values sum to the community's total number of tokens; the second report has the same code at `graph-processing/src/main/kotlin/xyz/mishkun/lobzik/graph/GraphRoutine.kt:173-176` |
| Labels.TopTokens | src/main/kotlin/xyz/mishkun/lobzik/graph/GraphRoutine.kt:180-181 | as many tokens as there are distinct tokens, up to three; distinct; each a token of the members' labels; the second report has the same code at `graph-processing/src/main/kotlin/xyz/mishkun/lobzik/graph/GraphRoutine.kt:187-188` |
| Labels.Take3 | src/main/kotlin/xyz/mishkun/lobzik/graph/GraphRoutine.kt:181 | `take(3)` keeps the first three elements, or all of them when there are fewer |
| Labels.TopTokensAreBest | src/main/kotlin/xyz/mishkun/lobzik/graph/GraphRoutine.kt:180-181 | no token left out scores higher than a token taken |
| Labels.TopTokensOrder | src/main/kotlin/xyz/mishkun/lobzik/graph/GraphRoutine.kt:180-181 | the tokens come in descending score; tokens of equal score come in the order they first occur; a token left out that ties with a taken one occurs later |
| Labels.TakeBest | src/main/kotlin/xyz/mishkun/lobzik/graph/GraphRoutine.kt:181 | `take(3)` of a ranking keeps the best three |
| Labels.Lower | src/main/kotlin/xyz/mishkun/lobzik/graph/GraphRoutine.kt:182 | same length; uppercase ASCII letters become lowercase and every other character stays |
| Labels.LowerAll | src/main/kotlin/xyz/mishkun/lobzik/graph/GraphRoutine.kt:182 | lower-cases each token in place |
| Labels.SplitOn | src/main/kotlin/xyz/mishkun/lobzik/graph/GraphRoutine.kt:182 | the inverse of `joinToString`: at least one piece |
| Labels.SplitOnPieces | src/main/kotlin/xyz/mishkun/lobzik/graph/GraphRoutine.kt:182 | no piece of a split holds the separator |
| Labels.SplitOnJoinDash | src/main/kotlin/xyz/mishkun/lobzik/graph/GraphRoutine.kt:182 | joining the pieces of a split at `-` with `-` gives the text back |
| Labels.JoinDashCons | src/main/kotlin/xyz/mishkun/lobzik/graph/GraphRoutine.kt:182 | `joinToString("-")` of two or more parts is the first part, a `-`, and the join of the rest |
| Labels.JoinDashSplits | src/main/kotlin/xyz/mishkun/lobzik/graph/GraphRoutine.kt:182 | round trip: splitting `joinToString("-")` at `-` gives back the parts when they hold no `-` |
| Labels.CommunityLabel | src/main/kotlin/xyz/mishkun/lobzik/graph/GraphRoutine.kt:180-182 | the label is the top tokens, lower-cased and joined by `-`: when no token holds a `-`, splitting it at `-` gives them back; the second report has the same code at `graph-processing/src/main/kotlin/xyz/mishkun/lobzik/graph/GraphRoutine.kt:187-189` |
| GraphRoutine.SumWeightsMonotone | src/main/kotlin/xyz/mishkun/lobzik/graph/GraphRoutine.kt:253 | with non-negative weights, a stricter filter sums to no more, and never below 0 |
| GraphRoutine.SumWeightsNone | src/main/kotlin/xyz/mishkun/lobzik/graph/GraphRoutine.kt:253 | a filter that keeps nothing sums to 0 |
| GraphRoutine.TotalWeight | src/main/kotlin/xyz/mishkun/lobzik/graph/GraphRoutine.kt:254 | the total out-weight is 0 when there are no out-edges, and non-negative with non-negative weights |
| GraphRoutine.Cut | src/main/kotlin/xyz/mishkun/lobzik/graph/GraphRoutine.kt:256-262 | with non-negative weights, the cut lies between 0 and the total out-weight |
| GraphRoutine.MonolithCut | src/main/kotlin/xyz/mishkun/lobzik/graph/GraphRoutine.kt:263-270 | with non-negative weights, the monolith cut lies between 0 and the cut |
| GraphRoutine.Conductance | src/main/kotlin/xyz/mishkun/lobzik/graph/GraphRoutine.kt:248-255 | cut over total out-weight, undefined (NaN) exactly when the total is 0 |
| GraphRoutine.ConductanceBounds | src/main/kotlin/xyz/mishkun/lobzik/graph/GraphRoutine.kt:248-271 | with non-negative weights a zero total has a zero cut (0/0), and a defined conductance lies in [0,1] and is 0 exactly when the cut is 0 |
| GraphRoutine.NoCutsNoMonolithCut | src/main/kotlin/xyz/mishkun/lobzik/graph/GraphRoutine.kt:264-271 | when the report lists no dependency to break, the monolith cut is 0 |
| GraphRoutine.KeepMonolithCommunities | src/main/kotlin/xyz/mishkun/lobzik/graph/GraphRoutine.kt:284-286 | the render loop skips exactly the communities without a monolith member |
| GraphRoutine.KeepPreservesOrder | src/main/kotlin/xyz/mishkun/lobzik/graph/GraphRoutine.kt:282-286 | skipping communities keeps the order and the distinctness |
| GraphRoutine.KeepStable | src/main/kotlin/xyz/mishkun/lobzik/graph/GraphRoutine.kt:282-286 | skipping communities keeps communities of equal conductance in their relative order |
| GraphRoutine.RenderOrder | src/main/kotlin/xyz/mishkun/lobzik/graph/GraphRoutine.kt:281-286 | communities are rendered once each, in ascending conductance, exactly those with a monolith member; communities of equal conductance in the order in which their first members stand in the view |
| GraphRoutine.TableOrder | src/main/kotlin/xyz/mishkun/lobzik/graph/GraphRoutine.kt:426 | the table lists every community once, in ascending conductance; communities of equal conductance in the order in which their first members stand in the view |
| GraphRoutine.MonolithClasses | src/main/kotlin/xyz/mishkun/lobzik/graph/GraphRoutine.kt:438 | the monolith member count is at most the community's size |
| GraphRoutine.ClassCountsSplit | src/main/kotlin/xyz/mishkun/lobzik/graph/GraphRoutine.kt:438-439 | the two class columns add up to the community's size, and the first is positive exactly when the community has a monolith member |
| GraphRoutine.TargetOf | src/main/kotlin/xyz/mishkun/lobzik/graph/GraphRoutine.kt:493-496 | an edge contributes at most one target community |
| GraphRoutine.TargetCommunities | src/main/kotlin/xyz/mishkun/lobzik/graph/GraphRoutine.kt:491-497 | at most one target community per out-edge |
| GraphRoutine.TargetCommunitiesCount | src/main/kotlin/xyz/mishkun/lobzik/graph/GraphRoutine.kt:490-498 | community `t` occurs once per out-edge into `t` with a monolith target, and never when `t` is the source community or 0 |
| GraphRoutine.TargetOfCount | src/main/kotlin/xyz/mishkun/lobzik/graph/GraphRoutine.kt:494-495 | one edge counts once towards the community it leads into and nowhere else |
| GraphRoutine.CommunityEdges | src/main/kotlin/xyz/mishkun/lobzik/graph/GraphRoutine.kt:510-521 | the edge A→B weighs the number of A's out-edges into B with a monolith target; B is a key exactly when that number is positive; there is no self-edge and no edge to community 0 |
| ProcessingGraphRoutine.CrossingEdges | graph-processing/src/main/kotlin/xyz/mishkun/lobzik/graph/GraphRoutine.kt:195 | at most the number of out-edges |
| ProcessingGraphRoutine.NoCrossingEdges | graph-processing/src/main/kotlin/xyz/mishkun/lobzik/graph/GraphRoutine.kt:195 | no edge crosses exactly when every target lies in the community |
| ProcessingGraphRoutine.Conductance | graph-processing/src/main/kotlin/xyz/mishkun/lobzik/graph/GraphRoutine.kt:192-197 | the count ratio is undefined (NaN) exactly when there is no out-edge, and otherwise lies in [0,1] |
| ProcessingGraphRoutine.ConductanceZero | graph-processing/src/main/kotlin/xyz/mishkun/lobzik/graph/GraphRoutine.kt:192-197 | a defined count ratio is 0 exactly when every out-edge stays inside the community |
| ProcessingGraphRoutine.ReportOrder | graph-processing/src/main/kotlin/xyz/mishkun/lobzik/graph/GraphRoutine.kt:271-272 | every community is rendered once, from the highest conductance down; communities of equal conductance in the order in which their first members stand in the view |

## Left out

- The Gephi pipeline of both `GraphRoutine.kt` files is not part of this model. That covers the CSV import container, the giant-component, partition and interface filters, and `Modularity` (Louvain) clustering. It also covers PageRank, HITS and Degree with their `ceil(size * 0.95)` caps, the ForceAtlas2 and LabelAdjust layout loops, the preview settings and the GEXF/GraphML/SVG export. They are library calls, and the community of every node is an input here.
- The tf-idf score is not modelled: idf with `log2` and the `freq * idf` products are floating-point arithmetic. `Labels.TopTokens` takes the score as a parameter. The label is proved structurally: at most three distinct best-scored tokens, lower-cased and joined by `-`.
- `Double` arithmetic is not modelled: weights, sums and ratios are exact `real`s, so rounding in `sumOf` is not captured.
- GraphRoutine.Conductance: Kotlin gives NaN for 0/0 and ±Infinity for a non-zero cut over a zero total. The second case needs negative weights. The model returns None for both.
- GraphRoutine.ConductanceBounds: assumes non-negative edge weights. The code does not check this; CSV weights are counts.
- Regular expressions are not interpreted. The ignored-class and feature-module patterns are a `matches` parameter, so an invalid pattern and its `PatternSyntaxException` are not modelled. The fixed patterns `L\w[\w/$]+;`, `<(.+?)>` and `(?<=.)(?=\p{Upper})` are written out as scanners. `[\w\d/$<>]*` is a predicate.
- Labels.Lower: lower-cases ASCII letters only. Kotlin's `lowercase()` also maps non-ASCII letters.
- HTML, plotly, kotlinx.html and template rendering are left out, and so is `generateRandomColor`. They are user interface and randomness. What the report prints is modelled as data: the orders, the dependency cut pairs and the class counts.
- For the community graph, only the edge weights are modelled. Creating the new nodes, their labels and colours is not, and `getNode` for a target community that has no node is left to Gephi. The edges come out in an unspecified `HashMap` order; the model gives them as a map.
- GraphRoutine.ModuleText: a node without a `module` attribute reads as the text `"null"`, which is how `toString()` renders the missing value on a Gephi node table.
- File and process I/O is not modelled. That covers CSV reading and writing with kotlin-csv, `Writer.java`, `SmaliAnalyzer.run`, `traverseSmaliCodeDir`, `isSmaliFile`, `FileReader`, `ZipFile` listing and the ASM `ClassReader`. The model takes callbacks, file names, lines and rows as input sequences instead. `Bytecode.Replay` plays a callback sequence back, and `ClassAnalyzer.visitEnd` only logs.
- `SmaliAnalyzer.isInstantRunEnabled` is not modelled, nor is the `isPathFilterOk` test on the file path during traversal. Both run before `processSmaliFile`.
- The `CodeUtils` helpers, `Filter` and `FilterProvider` are not part of this model. They appear as function-valued fields of `Smali.CodeUtils` and `Smali.SmaliAnalyzer`.
- Smali.SmaliAnalyzer.ProcessSmaliFile: Java could throw when the path is shorter than the project path, or when the file name has no `.`. The model requires both cases away instead of modelling those exceptions. The `IOException` branches are I/O.
- Smali.SmaliAnalyzer.CountFile: an exception from the scan of a line discards that whole line's names, which matches the `catch` at line 131, because `classNames` is only counted after the scan returns. The `getClassSimpleName` helper and the filters called inside the loop at `SmaliAnalyzer.java:123-129` are treated as total. If one of them threw, Java would keep the merges already made at line 127 for that line; the model does not capture such partial counts of a line. The exception's message is not modelled.
- `addDependencies` stores the caller's `HashMap` itself for a new class. The model stores a value copy. The difference cannot be observed, because the caller's map is a fresh local that is never used again.
- Logging is left out: every `log`, `logger`, `println` and `System.err` call.
- Gradle wiring and configuration are left out: the plugins, extensions, `LobzikListApkDepsTask.kt`, `LobzikAnalyzeDependencyGraphTask.kt`, `LobzikExplodeApkToSmaliTask.kt`, `ApkSmaliDecoderController.java`, `ImportExport.kt` and the build scripts. They hold no logic of the modelled stages.
- Kotlin `Int` overflow of the counts is not modelled; counts are unbounded.
