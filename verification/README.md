# R8 code outliner, with some neighbouring optimizer pieces, in Dafny

This project models the code outliner of the R8 Android compiler, and proves properties of the model.
The outliner finds short instruction sequences that recur across methods and moves each into a
static method of a synthesized outliner class.
The model covers the outliner's parts:

- `OutlineInstructions`: the template instructions of an outline (arithmetic binop,
  `new-instance`, invoke), with their order, equality, hash and input count.
- `Outlines`: the outline itself (template instructions, argument types, argument map, return
  type), with its prototype, equality, hash and natural order.
- `OutlineSpotter`: the window scanner that walks one basic block (`process`,
  `processInstruction`, `canIncludeInstruction`, `includeInstruction`, `candidate`, `reset`) and
  hands out outline candidates.
- `Outliner`: the three passes around the scanner.
  - The first pass (method identification) records every candidate with the methods it occurs in.
  - The second pass (site identification) records every outline site.
  - `buildOutlinerClass` sorts and numbers the selected outlines.
  - The rewriting pass builds the call to the outline method, gives back the sites and checks that
    all of them were found again.

Eight smaller optimizer pieces are modelled alongside, one module each:

- `Sub`: constant folding and Dex encoding of `sub`.
- `StaticFieldValues`: the static field value builders.
- `StringBuilderNode`: the string-builder graph nodes.
- `EffectivelyUnusedArgumentsGraph`: the effectively-unused-arguments graph nodes.
- `KeepInfo`: the keep-info lattice and collection.
- `MapUtils`: map transforms.
- `ClassNaming`: mapping-file class naming (line ranges, member lookup, combine).
- `ProguardTypeMatcher`: ProGuard type patterns.

Two helper modules model Java semantics:

- `JavaInt`: 32- and 64-bit wrap-around.
- `Ordering`: three-way comparisons of ordinals, booleans and strings.

`DexItems` holds the dex identifiers (type, prototype, method) that the outliner compares.

Everything is a pure function over immutable data.
Where Java mutates an object, the model returns the new value.
Where Java calls into code outside the modelled files, the model takes the answer as a parameter:

- inlining constraints and whether a value's type is a supported argument type are fields of the
  modelled value and instruction;
- hash codes of dex items are an `ItemHashes` parameter;
- the vertically merged sources of a type are an optional list;
- the string hash of a pattern is a function parameter.

## Model

| member | source | states |
|---|---|---|
| OutlineInstructions.TypeOf | src/main/java/com/android/tools/r8/ir/optimize/Outliner.java:139-162 | The instruction type is a binop type exactly for binops, `INVOKE` exactly for invokes and `NEW` exactly for `new-instance`. |
| OutlineInstructions.NumberOfInputsCountsInValues | src/main/java/com/android/tools/r8/ir/optimize/Outliner.java:474-477 | For a non-polymorphic invoke, the input count (receiver plus declared parameters) equals the in-value count of the call, and the invoke has a receiver exactly when it is not static. |
| OutlineInstructions.NumberOfInputs | src/main/java/com/android/tools/r8/ir/optimize/Outliner.java:474-477 | `numberOfInputs`: 2 for a binop, 0 for `new-instance`, and the receiver plus the invoked method's declared parameters for an invoke; stated by `NumberOfInputsCountsInValues` and `PolymorphicInputsAsWritten`. |
| OutlineInstructions.IntendedNumberOfInputs | src/main/java/com/android/tools/r8/ir/optimize/Outliner.java:474-477 | The corrected input count, the call's in-value count for every invoke; stated by `IntendedNumberOfInputsCountsInValues`. |
| OutlineInstructions.PolymorphicInputsAsWritten | src/main/java/com/android/tools/r8/ir/optimize/Outliner.java:474-477 | For a polymorphic invoke, the input count as written equals the call's in-value count exactly when the call-site prototype has as many parameters as the invoked method, or one fewer. |
| OutlineInstructions.MethodHandleInvokeMisaligned | src/main/java/com/android/tools/r8/ir/optimize/Outliner.java:474-477 | The template of `MethodHandle.invoke(Object[])` called with prototype `(II)V` is well formed, reports two inputs, and its call takes three in-values. |
| OutlineInstructions.IntendedNumberOfInputsCountsInValues | src/main/java/com/android/tools/r8/ir/optimize/Outliner.java:474-477 | The corrected input count of every invoke, polymorphic ones included, is the call's in-value count; for every other instruction it is the input count as written. |
| OutlineInstructions.CompareIsTotalOrder | src/main/java/com/android/tools/r8/ir/optimize/Outliner.java:432-457 | The comparison of template instructions is a total order: it is zero exactly on equal instructions, antisymmetric and transitive. It orders first by instruction type, then by the binop numeric type, the `new-instance` class, or the invoked method, invoke type, out-value flag and call-site prototype. |
| OutlineInstructions.Compare | src/main/java/com/android/tools/r8/ir/optimize/Outliner.java:432-457 | The template instruction `compareTo`; stated by `OutlineInstructions.CompareIsTotalOrder`. |
| OutlineInstructions.Hash | src/main/java/com/android/tools/r8/ir/optimize/Outliner.java:410-417 | An instruction's hash is a Java `int`. |
| Outlines.BuildProto | src/main/java/com/android/tools/r8/ir/optimize/Outliner.java:574-580 | The outline's prototype has one parameter per argument of the outline. |
| Outlines.EqualsIsIdentity | src/main/java/com/android/tools/r8/ir/optimize/Outliner.java:587-608 | Outline `equals` (same template instructions, argument types, argument map and return type) holds exactly for identical outlines. |
| Outlines.Equals | src/main/java/com/android/tools/r8/ir/optimize/Outliner.java:587-608 | Outline `equals`: pairwise equal template instructions, equal argument types, argument map and return type; stated by `EqualsIsIdentity`. |
| Outlines.CompareIsTotalOrder | src/main/java/com/android/tools/r8/ir/optimize/Outliner.java:625-670 | The natural order of outlines (prototype, instruction count, instructions, argument-map length and entries) is zero exactly when `equals` holds, antisymmetric and transitive. |
| Outlines.Compare | src/main/java/com/android/tools/r8/ir/optimize/Outliner.java:625-670 | The outline `compareTo`: prototypes, instruction count, instructions, argument-map length, then its entries; stated by `Outlines.CompareIsTotalOrder`. |
| Outlines.HashSeesOnlySizeAndFirstFive | src/main/java/com/android/tools/r8/ir/optimize/Outliner.java:610-623 | Two outlines with equally many template instructions that agree on the first five have the same hash, and the hash is a Java `int`. |
| Outlines.HashIsInt32 | src/main/java/com/android/tools/r8/ir/optimize/Outliner.java:614-622 | The hash loop, with its shifts and multiplications wrapped to 32 bits, stays a Java `int` from any `int` start. |
| Outlines.Hash | src/main/java/com/android/tools/r8/ir/optimize/Outliner.java:610-623 | The outline `hashCode` over the instruction count and the first five template instructions, with 32-bit wrap; stated by `HashSeesOnlySizeAndFirstFive` and `HashIsInt32`. |
| OutlineSpotter.TemplateOf | src/main/java/com/android/tools/r8/ir/optimize/Outliner.java:171-180 | The template of a binop, `new-instance` or invoke is a well-formed template instruction. |
| OutlineSpotter.Templates | src/main/java/com/android/tools/r8/ir/optimize/Outliner.java:545-568 | The outline constructor's template list holds only well-formed template instructions. Constants and assumes contribute none. |
| OutlineSpotter.Reset | src/main/java/com/android/tools/r8/ir/optimize/Outliner.java:1118-1130 | `reset` opens an empty window at the given index, with no arguments, no return value, return type `void`, and no pending `new-instance`. The block is unchanged. |
| OutlineSpotter.OrderedInValues | src/main/java/com/android/tools/r8/ir/optimize/Outliner.java:769-779 | The ordered in-values are a permutation of the instruction's in-values. They are unchanged except for a commutative binop whose second operand is the active return value, which has its operands swapped. |
| OutlineSpotter.ReorderingIsPermutation | src/main/java/com/android/tools/r8/ir/optimize/Outliner.java:769-779 | Swapping the first two operands of an instruction, which is all that ordering its in-values ever does, keeps the operands as a multiset and their count. |
| OutlineSpotter.PreviousNonConst | src/main/java/com/android/tools/r8/ir/optimize/Outliner.java:902-908 | The constructor check finds the nearest instruction before the current one that is not a constant. Everything between them is a constant. |
| OutlineSpotter.CanInclude | src/main/java/com/android/tools/r8/ir/optimize/Outliner.java:827-917 | When `canIncludeInstruction` accepts an instruction, it has a template, and the active return value has no users left once the instruction has an out-value. An accepted invoke is movable anywhere, its arguments are of supported types and fit in `MAX_IN_SIZE` registers, and a constructor follows its `new-instance` in the window with only constants between them. The pending `new-instance` index changes only to the current `new-instance` or to `-1` after its constructor. |
| OutlineSpotter.DropUses | src/main/java/com/android/tools/r8/ir/optimize/Outliner.java:1003-1015 | Each use of the return value decrements its users left; when none remain, the return value is dropped and the return type becomes `void`. |
| OutlineSpotter.UpdateReturnValue | src/main/java/com/android/tools/r8/ir/optimize/Outliner.java:1070-1080 | The new out-value becomes the tracked return value, with its type, exactly when it has users. Nothing else in the state changes. |
| OutlineSpotter.AddArgument | src/main/java/com/android/tools/r8/ir/optimize/Outliner.java:1027-1053 | One in-value adds one argument-map entry. The entry is the temporary exactly when the value is the previous return value. Otherwise it names the argument holding that value: a reused receiver, or a newly appended argument. |
| OutlineSpotter.AddArguments | src/main/java/com/android/tools/r8/ir/optimize/Outliner.java:1026-1055 | The argument loop adds one map entry per in-value and keeps every entry the temporary or a valid argument index. |
| OutlineSpotter.IncrementalMapEntriesValid | src/main/java/com/android/tools/r8/ir/optimize/Outliner.java:1036-1052 | A map built by appending the temporary, an earlier argument, or the next new argument holds only the temporary or indices of the arguments it introduced. |
| OutlineSpotter.IncludeInstruction | src/main/java/com/android/tools/r8/ir/optimize/Outliner.java:996-1068 | `includeInstruction` changes the block at most by reordering the current instruction's operands. It adds one argument-map entry per input and keeps the argument list, types and map consistent. |
| OutlineSpotter.CandidateAtIsValid | src/main/java/com/android/tools/r8/ir/optimize/Outliner.java:1084-1115 | Closing a window with a pending `new-instance` abandons it, restarting at the `new-instance`, or at the window end when the `new-instance` opened the window. A window below `minSize` restarts one past its start. Otherwise it yields a valid candidate, with trailing constants backed out, carrying the window's argument types, return type and arguments, and scanning resumes at the window end. |
| OutlineSpotter.CandidateAt | src/main/java/com/android/tools/r8/ir/optimize/Outliner.java:1084-1115 | `candidate`: keeps the block unchanged; its outcomes per case are stated by `CandidateAtIsValid`. |
| OutlineSpotter.TrailingConstsAddNothing | src/main/java/com/android/tools/r8/ir/optimize/Outliner.java:1097-1101 | Backing trailing constants out of a window changes neither its template instructions nor its input count. |
| OutlineSpotter.StepPreservesInvariant | src/main/java/com/android/tools/r8/ir/optimize/Outliner.java:782-824 | One `processInstruction` step keeps the scanner invariant and moves the window start or index forward. It changes the block only at the current instruction, and only by operand order. Any candidate it emits is valid and ends before the resume point. |
| OutlineSpotter.Step | src/main/java/com/android/tools/r8/ir/optimize/Outliner.java:782-824 | `processInstruction`: a constant at the window start restarts one further; constants and assumes are included without counting; an included instruction may close the window at `maxSize`; a rejected one closes a non-empty window or restarts. Its effect is stated by `StepPreservesInvariant`. |
| OutlineSpotter.ProcessYieldsValidCandidates | src/main/java/com/android/tools/r8/ir/optimize/Outliner.java:756-765 | A full `process` run changes the block only by operand order at or after its start. Its candidates are valid, ascending and pairwise disjoint. |
| OutlineSpotter.Process | src/main/java/com/android/tools/r8/ir/optimize/Outliner.java:756-765 | `process`: steps to the end of the block and collects the candidates in the order found; stated by `ProcessYieldsValidCandidates`. |
| OutlineSpotter.SpotYieldsValidCandidates | src/main/java/com/android/tools/r8/ir/optimize/Outliner.java:738-765 | From the constructor's `reset(0)`, the candidates of a block are valid windows of the block as the scan left it, in ascending order and pairwise disjoint. |
| OutlineSpotter.Spot | src/main/java/com/android/tools/r8/ir/optimize/Outliner.java:738-765 | The candidates of a block from the constructor's initial state; stated by `SpotYieldsValidCandidates`. |
| OutlineSpotter.ArgumentMapCountsInputs | src/main/java/com/android/tools/r8/ir/optimize/Outliner.java:686-699 | Outside polymorphic calls (see the first finding below), a window's argument map has exactly as many entries as its template instructions have inputs, which is what walking the map per `numberOfInputs` relies on. |
| OutlineSpotter.ArgumentMapCountsIntendedInputs | src/main/java/com/android/tools/r8/ir/optimize/Outliner.java:1026-1054 | For every window, polymorphic calls included, the argument map has exactly as many entries as the template instructions have in-values, when an invoke's inputs are counted from its call site. |
| OutlineSpotter.PolymorphicWindowMisaligned | src/main/java/com/android/tools/r8/ir/optimize/Outliner.java:686-699 | A window holding only `MethodHandle.invoke(Object[])` called with two `int` arguments has three argument-map entries, but its template instructions report two inputs, so the walk per `numberOfInputs` falls one entry short. |
| OutlineSpotter.AsWrittenExceedsRegisterBudget | src/main/java/com/android/tools/r8/ir/optimize/Outliner.java:870-892 | With registers counted as written, a block of two static calls, each with three new one-register arguments, yields one outline whose arguments take six registers, more than `MAX_IN_SIZE`. |
| OutlineSpotter.IntendedKeepsRegisterBudget | src/main/java/com/android/tools/r8/ir/optimize/Outliner.java:1026-1054 | When every new argument's registers are counted, no spotted candidate's arguments take more than `MAX_IN_SIZE` registers. |
| Outliner.OccurrencesMembership | src/main/java/com/android/tools/r8/ir/optimize/Outliner.java:1147-1152 | A method is among an outline's occurrences exactly when the outline was spotted in it. |
| Outliner.CandidateSites | src/main/java/com/android/tools/r8/ir/optimize/Outliner.java:1291-1293 | A method's candidates become one occurrence each, in order, all in that method. |
| Outliner.CandidateMapCountsOccurrences | src/main/java/com/android/tools/r8/ir/optimize/Outliner.java:1147-1152 | From an empty candidate map, an outline is a key exactly when it was spotted. Its method multiset holds each method once per occurrence. |
| Outliner.RecordCandidate | src/main/java/com/android/tools/r8/ir/optimize/Outliner.java:1147-1152 | One first-pass occurrence adds its method to its outline's multiset; stated through `CandidateMapCountsOccurrences`. |
| Outliner.RecordCandidates | src/main/java/com/android/tools/r8/ir/optimize/Outliner.java:1147-1152 | The first pass adds each spotted occurrence's method to its outline's multiset; stated by `CandidateMapCountsOccurrences`. |
| Outliner.SelectedMethodsHoldFrequentOutlines | src/main/java/com/android/tools/r8/ir/optimize/Outliner.java:1326-1331 | A method is selected for outlining exactly when it holds an outline that occurs at least `threshold` times across the first pass. |
| Outliner.SelectMethods | src/main/java/com/android/tools/r8/ir/optimize/Outliner.java:1326-1331 | The methods of every outline whose multiset has at least `threshold` entries; stated by `SelectedMethodsHoldFrequentOutlines`. |
| Outliner.SiteMapCountsOccurrences | src/main/java/com/android/tools/r8/ir/optimize/Outliner.java:1168-1172 | From an empty site map, an outline is a key exactly when it was spotted. Its site list is non-empty and holds each method once per occurrence. |
| Outliner.RecordSite | src/main/java/com/android/tools/r8/ir/optimize/Outliner.java:1168-1172 | One second-pass occurrence appends its method to its outline's site list; stated through `SiteMapCountsOccurrences`. |
| Outliner.RecordSites | src/main/java/com/android/tools/r8/ir/optimize/Outliner.java:1168-1172 | The second pass appends each spotted occurrence's method to its outline's site list; stated by `SiteMapCountsOccurrences`. |
| Outliner.SelectOutlinesFilters | src/main/java/com/android/tools/r8/ir/optimize/Outliner.java:1405-1415 | `selectOutlines` keeps exactly the outlines with at least `threshold` sites, in map order, and keeps a duplicate-free list duplicate-free. |
| Outliner.SelectOutlines | src/main/java/com/android/tools/r8/ir/optimize/Outliner.java:1405-1415 | The outlines with at least `threshold` sites, in map order; stated by `SelectOutlinesFilters`. |
| Outliner.SelectedOutlinesAreFrequent | src/main/java/com/android/tools/r8/ir/optimize/Outliner.java:1405-1415 | An outline is selected exactly when it was spotted at least `threshold` times, and then its site list is non-empty. |
| Outliner.Insert | src/main/java/com/android/tools/r8/ir/optimize/Outliner.java:1347-1348 | Inserting an outline into a list sorted by the outline order keeps it sorted and adds exactly that outline. |
| Outliner.SortOutlines | src/main/java/com/android/tools/r8/ir/optimize/Outliner.java:1347-1348 | The sort yields a strictly ascending permutation of the selected outlines. |
| Outliner.SortedIsCanonical | src/main/java/com/android/tools/r8/ir/optimize/Outliner.java:1345-1348 | Two sorted lists of the same outlines are the same list, so the sort result does not depend on the map's iteration order. |
| Outliner.Numbering | src/main/java/com/android/tools/r8/ir/optimize/Outliner.java:1350-1372 | The generated-method numbering maps exactly the sorted outlines, outline `k` to method number `k`. |
| Outliner.SortedIsDistinct | src/main/java/com/android/tools/r8/ir/optimize/Outliner.java:1348-1351 | A strictly sorted outline list has no duplicates, so no method number is given twice. |
| Outliner.GeneratedOutlinesAreDeterministic | src/main/java/com/android/tools/r8/ir/optimize/Outliner.java:1343-1373 | `buildOutlinerClass` gives the same outline methods for any enumeration of the site map. They are sorted; generated outlines are exactly those with at least `threshold` sites; outline `k` is method `k`. |
| Outliner.BuildOutlines | src/main/java/com/android/tools/r8/ir/optimize/Outliner.java:1343-1373 | The selected outlines sorted, with method number `k` for the `k`-th; stated by `GeneratedOutlinesAreDeterministic`, `Numbering` and `SortOutlines`. |
| Outliner.RemoveFirst | src/main/java/com/android/tools/r8/ir/optimize/Outliner.java:1261-1268 | Removing a method's first site succeeds exactly when the list holds the method. It then removes one copy and nothing else; otherwise the list is unchanged. |
| Outliner.RemoveSitesKeepsOthers | src/main/java/com/android/tools/r8/ir/optimize/Outliner.java:1195-1198 | The rewriting pass leaves the sites of outlines that were not generated, and the set of keys, unchanged. |
| Outliner.RemoveSitesCount | src/main/java/com/android/tools/r8/ir/optimize/Outliner.java:1195-1198 | While the rewritten occurrences of a generated outline are among its sites, its site list ends as the recorded sites minus those occurrences. |
| Outliner.RemoveSiteEffect | src/main/java/com/android/tools/r8/ir/optimize/Outliner.java:1196-1198 | One rewritten occurrence changes only its own outline's site list. The removal succeeds exactly when the method is among that outline's sites, or when the outline was not generated. |
| Outliner.RemoveSite | src/main/java/com/android/tools/r8/ir/optimize/Outliner.java:1261-1268 | One rewritten occurrence removes its method once from a generated outline's sites and reports whether it was there; stated by `RemoveSiteEffect`. |
| Outliner.RemoveSitesSucceed | src/main/java/com/android/tools/r8/ir/optimize/Outliner.java:1261-1268 | Every removal's assertion holds while no generated outline has more rewritten occurrences than recorded sites. |
| Outliner.RemoveSites | src/main/java/com/android/tools/r8/ir/optimize/Outliner.java:1195-1198 | The rewriting pass applies the removals in order and reports whether all succeeded; stated by `RemoveSitesKeepsOthers`, `RemoveSitesCount`, `RemoveSitesSucceed` and `AllOutlineSitesFoundAgain`. |
| Outliner.AllOutlineSitesFoundAgain | src/main/java/com/android/tools/r8/ir/optimize/Outliner.java:1428-1433 | When the rewriting pass spots every generated outline exactly as often, in the same methods, as the site pass did, every removal succeeds and every generated outline's site list ends empty. |
| Outliner.CollectArgumentsFollowsMap | src/main/java/com/android/tools/r8/ir/optimize/Outliner.java:1216-1224 | Over an incremental argument map, the call receives one argument per new map entry, and the value at each new entry becomes the argument that entry names. |
| Outliner.CollectArguments | src/main/java/com/android/tools/r8/ir/optimize/Outliner.java:1216-1224 | An in-value becomes the next call argument when its map entry is not below the number of arguments so far; stated by `CollectArgumentsFollowsMap`. |
| Outliner.WindowInValuesCount | src/main/java/com/android/tools/r8/ir/optimize/Outliner.java:1205-1227 | In a window of constants and templated instructions, the rewriter walks over exactly as many in-values as the argument map has entries. |
| Outliner.CallMatchesProto | src/main/java/com/android/tools/r8/ir/optimize/Outliner.java:1235 | For a valid candidate without assumes, the call to the outline method passes exactly as many values as the outline prototype has parameters. Every new map entry's value is the argument that entry names. |
| Outliner.CallArguments | src/main/java/com/android/tools/r8/ir/optimize/Outliner.java:1205-1235 | The call's arguments, collected from the window's in-values through the argument map; stated by `CallMatchesProto`. |
| Outliner.ToRemoveIsExact | src/main/java/com/android/tools/r8/ir/optimize/Outliner.java:1205-1233 | The rewriter removes exactly the non-constant instructions of the window other than its last instruction (replaced by the call), in ascending order. |
| Outliner.ToRemove | src/main/java/com/android/tools/r8/ir/optimize/Outliner.java:1205-1233 | The indices the rewriter removes; stated by `ToRemoveIsExact`. |
| Ordering.CompareOrdinals | src/main/java/com/android/tools/r8/ir/optimize/Outliner.java:187-189 | Enum `compareTo` on ordinals is zero exactly on equal ordinals and negative exactly for a smaller ordinal. |
| Ordering.CompareBooleans | src/main/java/com/android/tools/r8/ir/optimize/Outliner.java:445 | `Boolean.compare` is zero exactly on equal flags and negative exactly for `false` against `true`. |
| Sub.FoldIntegers | src/main/java/com/android/tools/r8/ir/code/Sub.java:103-106 | Folding an `int` subtraction yields a Java `int` congruent to the difference modulo 2^32. |
| Sub.FoldLongs | src/main/java/com/android/tools/r8/ir/code/Sub.java:108-111 | Folding a `long` subtraction yields a Java `long` congruent to the difference modulo 2^64. |
| Sub.FoldIntegersRoundTrip | src/main/java/com/android/tools/r8/ir/code/Sub.java:103-106 | Adding the right operand back to the folded `int` difference, with wrap-around, gives the left operand. |
| Sub.FoldLongsRoundTrip | src/main/java/com/android/tools/r8/ir/code/Sub.java:108-111 | Adding the right operand back to the folded `long` difference, with wrap-around, gives the left operand. |
| Sub.SubIsNotCommutative | src/main/java/com/android/tools/r8/ir/code/Sub.java:41-44 | `isCommutative` is false for `sub`, and one pair of operands, 1 and 0, gives a different folded value when swapped. |
| Sub.AtMostOneOperandInlined | src/main/java/com/android/tools/r8/ir/code/Sub.java:144-160 | At least one operand of a `sub` stays in a register. With distinct operands, the left one needs a register exactly when it is not an encodable literal, and the right one when the left is a literal or the right does not fit negated. |
| Sub.NeedsValueInRegister | src/main/java/com/android/tools/r8/ir/code/Sub.java:144-160 | `needsValueInRegister`: both operands when they are the same value, the left one when it does not fit, the right one when its negation does not fit or the left one fits; stated by `AtMostOneOperandInlined` and `BuildDex`. |
| Sub.NegativeFitsInDexInstruction | src/main/java/com/android/tools/r8/ir/code/Sub.java:123-127 | `negativeFitsInDexInstruction`: an `int` constant whose negation is 16-bit; stated by `AtMostOneOperandInlined` and `BuildDex`. |
| Sub.BuildDex | src/main/java/com/android/tools/r8/ir/code/Sub.java:162-204 | The Dex encoding is the generic one exactly for two-address form or non-`int` types. For a three-address `int` `sub`: `rsub-int/lit8` exactly when the left operand is an 8-bit constant not needing a register, `rsub-int` for any other left literal, `add-int/lit8` exactly when the right operand negated fits 8 bits and needs no register, `add-int/lit16` for any other right literal, and `sub-int` otherwise. The reversed forms read the right register and the left constant, the add forms the left register and the negated right constant, and `sub-int` the left and right registers; the destination is kept. |
| Sub.BuildDexComputesDifference | src/main/java/com/android/tools/r8/ir/code/Sub.java:162-204 | Every `int` encoding chosen (`rsub-int`, `rsub-int/lit8`, `add-int/lit8` and `add-int/lit16` with a negated literal, `sub-int`) computes the wrapped difference of the operands. |
| Sub.MaxInOutValueRegisterSize | src/main/java/com/android/tools/r8/ir/code/Sub.java:129-142 | The register limit of a `sub` is 15 or 255. |
| Sub.RegisterLimitMatchesEncoding | src/main/java/com/android/tools/r8/ir/code/Sub.java:129-142 | The register limit is 15 exactly when the instruction is encoded with a 16-bit literal format. |
| Sub.IdenticalPartsIsEquivalence | src/main/java/com/android/tools/r8/ir/code/Sub.java:98-101 | Comparing the non-value parts of instructions is reflexive, symmetric and transitive, and no other instruction kind is identical to a `sub`. |
| StaticFieldValues.NewBuilder | src/main/java/com/android/tools/r8/ir/analysis/fieldvalueanalysis/StaticFieldValues.java:25-27 | An enum class gets an empty enum builder; any other class gets the empty builder. |
| StaticFieldValues.RecordStaticField | src/main/java/com/android/tools/r8/ir/analysis/fieldvalueanalysis/StaticFieldValues.java:65-75 | The empty builder ignores records. The enum builder records the `$VALUES` field's value, appends other enum fields with their value, and ignores non-enum fields. |
| StaticFieldValues.Build | src/main/java/com/android/tools/r8/ir/analysis/fieldvalueanalysis/StaticFieldValues.java:77-85 | The empty builder builds the empty values. The enum builder fails on a field recorded twice and otherwise builds a map holding exactly the recorded fields and values, with the `$VALUES` field and value. |
| StaticFieldValues.EmptyBuilderIgnoresRecords | src/main/java/com/android/tools/r8/ir/analysis/fieldvalueanalysis/StaticFieldValues.java:148-159 | However many fields are recorded, the empty builder stays empty and builds the empty values. |
| StaticFieldValues.EnumBuilderCollectsEnumFields | src/main/java/com/android/tools/r8/ir/analysis/fieldvalueanalysis/StaticFieldValues.java:65-75 | After a sequence of records, the enum builder's entries are the earlier entries followed by the enum fields recorded, in order. |
| StaticFieldValues.EnumBuilderKeepsValuesValue | src/main/java/com/android/tools/r8/ir/analysis/fieldvalueanalysis/StaticFieldValues.java:65-75 | Records of fields other than `$VALUES` leave the recorded `$VALUES` value unchanged. |
| StaticFieldValues.EnumBuilderLastValuesRecordWins | src/main/java/com/android/tools/r8/ir/analysis/fieldvalueanalysis/StaticFieldValues.java:69-71 | The `$VALUES` value after a sequence of records is the one of its last record. |
| StaticFieldValues.GetObjectState | src/main/java/com/android/tools/r8/ir/analysis/fieldvalueanalysis/StaticFieldValues.java:104-132 | A field with a single-field value answers that value's state, one with an unknown value answers the empty state, and one with any other non-zero value is an assertion failure. A missing or zero field value falls through to `$VALUES`: a missing `$VALUES` value fails, a zero one answers null, a single-field one answers the per-ordinal state of its enum values array (the empty state when it holds no enum values), and any other value is an assertion failure. |
| StaticFieldValues.FieldValueTakesPriority | src/main/java/com/android/tools/r8/ir/analysis/fieldvalueanalysis/StaticFieldValues.java:104-132 | A field's own value, when present and not zero, decides the answer whatever `$VALUES` holds; when the field has no usable value, two builds with the same `$VALUES` value answer the same. |
| StringBuilderNode.NewNode | src/main/java/com/android/tools/r8/ir/optimize/string/StringBuilderNode.java:42-49 | A new node is live and has no successors or predecessors. |
| StringBuilderNode.SingleNeighbourIsUnique | src/main/java/com/android/tools/r8/ir/optimize/string/StringBuilderNode.java:143-168 | A node has a single successor (predecessor) exactly when its successor (predecessor) set is one node. |
| StringBuilderNode.HasSingleSuccessor | src/main/java/com/android/tools/r8/ir/optimize/string/StringBuilderNode.java:143-145 | `hasSingleSuccessor`: the successor set has one node; stated by `SingleNeighbourIsUnique`. |
| StringBuilderNode.HasSinglePredecessor | src/main/java/com/android/tools/r8/ir/optimize/string/StringBuilderNode.java:161-163 | `hasSinglePredecessor`: the predecessor set has one node; stated by `SingleNeighbourIsUnique`. |
| StringBuilderNode.AddSuccessor | src/main/java/com/android/tools/r8/ir/optimize/string/StringBuilderNode.java:152-155 | Adding a successor links both ends, one as successor and the other as predecessor, and changes no other node. |
| StringBuilderNode.AddSuccessorPreservesSymmetry | src/main/java/com/android/tools/r8/ir/optimize/string/StringBuilderNode.java:152-155 | Adding a successor keeps every successor edge matched by a predecessor edge. |
| StringBuilderNode.AddPredecessor | src/main/java/com/android/tools/r8/ir/optimize/string/StringBuilderNode.java:174-176 | Adding a predecessor changes only that node's predecessor set, adding exactly the new predecessor. |
| StringBuilderNode.ReplaceInPredecessors | src/main/java/com/android/tools/r8/ir/optimize/string/StringBuilderNode.java:179-182 | In each successor of the removed node, the removed node is replaced among its predecessors by the removed node's predecessors; other nodes are unchanged. |
| StringBuilderNode.ReplaceInSuccessors | src/main/java/com/android/tools/r8/ir/optimize/string/StringBuilderNode.java:183-186 | In each predecessor of the removed node, the removed node is replaced among its successors by the removed node's successors; other nodes are unchanged. |
| StringBuilderNode.RemoveNode | src/main/java/com/android/tools/r8/ir/optimize/string/StringBuilderNode.java:178-188 | `removeNode` computes the graph with the node spliced out and marked dead. |
| StringBuilderNode.RemovedSplicesNode | src/main/java/com/android/tools/r8/ir/optimize/string/StringBuilderNode.java:178-188 | The removed node is dead, no live node refers to it, the remaining live nodes stay symmetric, and each of its predecessors is linked to each of its successors. |
| EffectivelyUnusedArgumentsGraph.NewNode | src/main/java/com/android/tools/r8/optimize/argumentpropagation/unusedarguments/EffectivelyUnusedArgumentsGraphNode.java:20-28 | A new node is optimizable, has no edges, and records its method and argument index. |
| EffectivelyUnusedArgumentsGraph.ReceiverIsNeverNullable | src/main/java/com/android/tools/r8/optimize/argumentpropagation/unusedarguments/EffectivelyUnusedArgumentsGraphNode.java:75-82 | For every method info, the new node of argument 0 of an instance method is not nullable, even when the optimization info lists argument 0 as nullable; the node of argument 0 of a static method, and of any argument `k > 0`, is nullable exactly when the info lists it. |
| EffectivelyUnusedArgumentsGraph.IsNullable | src/main/java/com/android/tools/r8/optimize/argumentpropagation/unusedarguments/EffectivelyUnusedArgumentsGraphNode.java:75-82 | `isNullable`: false for the receiver of an instance method, otherwise what the method's optimization info says about the argument; its properties are stated by `ReceiverIsNeverNullable`, `NodeUpdatesKeepNullability` and `GraphUpdatesKeepNullability`. |
| EffectivelyUnusedArgumentsGraph.NodeUpdatesKeepNullability | src/main/java/com/android/tools/r8/optimize/argumentpropagation/unusedarguments/EffectivelyUnusedArgumentsGraphNode.java:75-82 | Marking a node's argument unused or the node unoptimizable does not change whether it is nullable. |
| EffectivelyUnusedArgumentsGraph.GraphUpdatesKeepNullability | src/main/java/com/android/tools/r8/optimize/argumentpropagation/unusedarguments/EffectivelyUnusedArgumentsGraphNode.java:75-82 | In a closed, symmetric graph, adding a successor, cleaning a node for removal and removing unused successors leave every node exactly as nullable as before. |
| EffectivelyUnusedArgumentsGraph.AddSuccessorKeepsArguments | src/main/java/com/android/tools/r8/optimize/argumentpropagation/unusedarguments/EffectivelyUnusedArgumentsGraphNode.java:30-36 | Adding a successor keeps the set of nodes and every node's method info and argument index. |
| EffectivelyUnusedArgumentsGraph.CleanForRemovalKeepsArguments | src/main/java/com/android/tools/r8/optimize/argumentpropagation/unusedarguments/EffectivelyUnusedArgumentsGraphNode.java:38-41 | Cleaning a node for removal keeps the set of nodes and every node's method info and argument index. |
| EffectivelyUnusedArgumentsGraph.RemoveUnusedSuccessorsKeepsArguments | src/main/java/com/android/tools/r8/optimize/argumentpropagation/unusedarguments/EffectivelyUnusedArgumentsGraphNode.java:93-103 | Removing unused successors keeps the set of nodes and every node's method info and argument index. |
| EffectivelyUnusedArgumentsGraph.IsUnused | src/main/java/com/android/tools/r8/optimize/argumentpropagation/unusedarguments/EffectivelyUnusedArgumentsGraphNode.java:88-91 | `isUnused`: the method's info has unused arguments and lists this argument among them; `SetUnused` and `RemoveUnusedSuccessors` state what follows from it. |
| EffectivelyUnusedArgumentsGraph.SetUnused | src/main/java/com/android/tools/r8/optimize/argumentpropagation/unusedarguments/EffectivelyUnusedArgumentsGraphNode.java:109-118 | Marking an argument unused makes it unused, keeps every other argument that was unused unused, and changes nothing else of the node. |
| EffectivelyUnusedArgumentsGraph.SetUnoptimizable | src/main/java/com/android/tools/r8/optimize/argumentpropagation/unusedarguments/EffectivelyUnusedArgumentsGraphNode.java:105-107 | Marking a node unoptimizable sets only that flag. |
| EffectivelyUnusedArgumentsGraph.AddSuccessor | src/main/java/com/android/tools/r8/optimize/argumentpropagation/unusedarguments/EffectivelyUnusedArgumentsGraphNode.java:30-36 | Adding a successor links both ends and changes no other node. |
| EffectivelyUnusedArgumentsGraph.AddSuccessorKeepsSymmetryAndIsIdempotent | src/main/java/com/android/tools/r8/optimize/argumentpropagation/unusedarguments/EffectivelyUnusedArgumentsGraphNode.java:30-36 | Adding a successor keeps the graph symmetric, and adding the same edge twice is the same as adding it once. |
| EffectivelyUnusedArgumentsGraph.ClearSuccessors | src/main/java/com/android/tools/r8/optimize/argumentpropagation/unusedarguments/EffectivelyUnusedArgumentsGraphNode.java:43-49 | Clearing a node's successors empties its successor set and removes it from each former successor's predecessors. |
| EffectivelyUnusedArgumentsGraph.ClearSuccessorsKeepsInvariants | src/main/java/com/android/tools/r8/optimize/argumentpropagation/unusedarguments/EffectivelyUnusedArgumentsGraphNode.java:43-49 | Clearing successors keeps the graph closed and symmetric, and removes exactly the edges leaving the node. |
| EffectivelyUnusedArgumentsGraph.ClearPredecessors | src/main/java/com/android/tools/r8/optimize/argumentpropagation/unusedarguments/EffectivelyUnusedArgumentsGraphNode.java:51-57 | Clearing a node's predecessors empties its predecessor set and removes it from each former predecessor's successors. |
| EffectivelyUnusedArgumentsGraph.ClearPredecessorsKeepsInvariants | src/main/java/com/android/tools/r8/optimize/argumentpropagation/unusedarguments/EffectivelyUnusedArgumentsGraphNode.java:51-57 | Clearing predecessors keeps the graph closed and symmetric, and removes exactly the edges entering the node. |
| EffectivelyUnusedArgumentsGraph.CleanForRemoval | src/main/java/com/android/tools/r8/optimize/argumentpropagation/unusedarguments/EffectivelyUnusedArgumentsGraphNode.java:38-41 | Cleaning a node for removal keeps the set of nodes. |
| EffectivelyUnusedArgumentsGraph.CleanForRemovalIsolatesNode | src/main/java/com/android/tools/r8/optimize/argumentpropagation/unusedarguments/EffectivelyUnusedArgumentsGraphNode.java:38-41 | After cleaning, the node has no edges, no other node refers to it, and the graph stays closed and symmetric. |
| EffectivelyUnusedArgumentsGraph.RemoveUnusedSuccessors | src/main/java/com/android/tools/r8/optimize/argumentpropagation/unusedarguments/EffectivelyUnusedArgumentsGraphNode.java:93-103 | Removing unused successors drops exactly the successors whose argument is unused, unlinking each from both sides, and keeps the rest. |
| EffectivelyUnusedArgumentsGraph.RemoveUnusedSuccessorsKeepsSymmetry | src/main/java/com/android/tools/r8/optimize/argumentpropagation/unusedarguments/EffectivelyUnusedArgumentsGraphNode.java:93-103 | Removing unused successors keeps the graph symmetric and changes only the edges between the node and those successors. |
| KeepInfo.Merge | src/main/java/com/android/tools/r8/shaking/KeepInfoCollection.java:351-357 | Merging keep info gives the least upper bound of the two infos in the keep lattice. |
| KeepInfo.Pin | src/main/java/com/android/tools/r8/shaking/KeepInfoCollection.java:413-415 | Pinning only strengthens keep info, and the result is pinned. |
| KeepInfo.Top | src/main/java/com/android/tools/r8/shaking/KeepInfoCollection.java:409-411 | Keeping a class makes its keep info the top of the lattice. |
| KeepInfo.Unpin | src/main/java/com/android/tools/r8/shaking/KeepInfoCollection.java:441-446 | Unpinning clears the pinned flag and keeps the other restrictions. |
| KeepInfo.EmptyDefaultsToBottom | src/main/java/com/android/tools/r8/shaking/KeepInfoCollection.java:378-393 | An empty collection answers bottom for every class, method and field. |
| KeepInfo.GetClassInfo | src/main/java/com/android/tools/r8/shaking/KeepInfoCollection.java:379-382 | The recorded class info, or bottom; stated by `EmptyDefaultsToBottom` and `PrunedItemsBecomeBottom`. |
| KeepInfo.GetMethodInfo | src/main/java/com/android/tools/r8/shaking/KeepInfoCollection.java:384-388 | The recorded method info, or bottom; stated by `EmptyDefaultsToBottom` and `PrunedItemsBecomeBottom`. |
| KeepInfo.GetFieldInfo | src/main/java/com/android/tools/r8/shaking/KeepInfoCollection.java:390-393 | The recorded field info, or bottom; stated by `EmptyDefaultsToBottom` and `PrunedItemsBecomeBottom`. |
| KeepInfo.JoinEntry | src/main/java/com/android/tools/r8/shaking/KeepInfoCollection.java:395-407 | Joining into an entry that is top does nothing. Otherwise the entry becomes the joined value; an unchanged value leaves the map as it was; other keys are untouched. |
| KeepInfo.JoinClass | src/main/java/com/android/tools/r8/shaking/KeepInfoCollection.java:395-407 | `joinClass` on the class map through `JoinEntry`; stated by `JoinIsInflationary` and `KeepAndPinClass`. |
| KeepInfo.JoinMethod | src/main/java/com/android/tools/r8/shaking/KeepInfoCollection.java:417-429 | `joinMethod` on the method map through `JoinEntry`; stated by `JoinIsInflationary`. |
| KeepInfo.JoinField | src/main/java/com/android/tools/r8/shaking/KeepInfoCollection.java:395-407 | `joinField`, the same join on the field map through `JoinEntry`; stated by `JoinIsInflationary`. |
| KeepInfo.JoinIsInflationary | src/main/java/com/android/tools/r8/shaking/KeepInfoCollection.java:417-429 | An inflationary join never weakens the joined item's keep info and leaves the other kinds of items alone. |
| KeepInfo.KeepAndPinClass | src/main/java/com/android/tools/r8/shaking/KeepInfoCollection.java:409-415 | After `keepClass` the class is top; after `pinClass` it is pinned. |
| KeepInfo.EvaluateEntry | src/main/java/com/android/tools/r8/shaking/KeepInfoCollection.java:351-357 | A bottom rule minimum changes nothing. Otherwise the item's info is joined with the minimum, and the minimum is merged into the rule map. |
| KeepInfo.EvaluatedRuleIsCovered | src/main/java/com/android/tools/r8/shaking/KeepInfoCollection.java:351-376 | After a rule is evaluated for a class, method or field, its keep info is at least the rule's minimum, and so is the recorded rule when the minimum is not bottom. |
| KeepInfo.EvaluateClassRule | src/main/java/com/android/tools/r8/shaking/KeepInfoCollection.java:351-358 | `evaluateClassRule` through `EvaluateEntry` on the class maps; stated by `EvaluatedRuleIsCovered`. |
| KeepInfo.EvaluateMethodRule | src/main/java/com/android/tools/r8/shaking/KeepInfoCollection.java:369-376 | `evaluateMethodRule` through `EvaluateEntry` on the method maps; stated by `EvaluatedRuleIsCovered`. |
| KeepInfo.EvaluateFieldRule | src/main/java/com/android/tools/r8/shaking/KeepInfoCollection.java:360-367 | `evaluateFieldRule` through `EvaluateEntry` on the field maps; stated by `EvaluatedRuleIsCovered`. |
| KeepInfo.RemoveKeepInfoForPrunedItems | src/main/java/com/android/tools/r8/shaking/KeepInfoCollection.java:236-240 | Pruning drops exactly the info of removed classes and of members held by them, and keeps the rule maps. |
| KeepInfo.PrunedItemsBecomeBottom | src/main/java/com/android/tools/r8/shaking/KeepInfoCollection.java:236-240 | After pruning, removed classes and their members answer bottom, and everything else answers as before. |
| KeepInfo.UnsafeUnpinMethod | src/main/java/com/android/tools/r8/shaking/KeepInfoCollection.java:441-446 | A pinned method is unpinned; a method that is not pinned or not recorded, and all other info, are unchanged. |
| KeepInfo.ForEachPinned | src/main/java/com/android/tools/r8/shaking/KeepInfoCollection.java:508-516 | The visitor sees exactly the pinned items, each once. |
| KeepInfo.GetMethodInfoByReference | src/main/java/com/android/tools/r8/shaking/KeepInfoCollection.java:107-114 | A method reference that resolves to no program-class method answers bottom; one that its program-class holder defines answers the recorded info of that method, or bottom when none is recorded. |
| KeepInfo.GetFieldInfoByReference | src/main/java/com/android/tools/r8/shaking/KeepInfoCollection.java:120-127 | A field reference that resolves to no program-class field answers bottom; one that its program-class holder defines answers the recorded info of that field, or bottom when none is recorded. |
| MapUtils.TransformFoldKeys | src/main/java/com/android/tools/r8/utils/MapUtils.java:50-70 | The transformed map's keys are exactly the mapped keys that are present, and it has no more entries than the source. |
| MapUtils.TransformFoldValues | src/main/java/com/android/tools/r8/utils/MapUtils.java:57-68 | Each new key's value is the merge, in entry order, of the mapped values of the entries mapping to it. |
| MapUtils.Transform | src/main/java/com/android/tools/r8/utils/MapUtils.java:50-70 | The loop computes a map whose keys are the mapped keys, whose values are the merged mapped values, and which is no larger than the source. |
| MapUtils.RemoveIdentityMappings | src/main/java/com/android/tools/r8/utils/MapUtils.java:41-43 | Exactly the entries that map a key to a different value remain, with their values. |
| MapUtils.RemoveIdentityMappingsIdempotent | src/main/java/com/android/tools/r8/utils/MapUtils.java:41-43 | Removing identity mappings twice is the same as once. |
| MapUtils.Clone | src/main/java/com/android/tools/r8/utils/MapUtils.java:17-21 | The clone holds the target's entries plus every source entry with its value cloned, the cloned value winning on shared keys. |
| MapUtils.IgnoreKey | src/main/java/com/android/tools/r8/utils/MapUtils.java:31-33 | The adapted function does not depend on its key: any two keys give the same value, and that value is the supplier's, so `computeIfAbsent` with it stores the same value whichever key is missing. |
| ClassNaming.FirstRangeForLine | src/main/java/com/android/tools/r8/naming/ClassNamingForNameMapper.java:135-150 | The single pass answers the first range whose minified range contains the line, even when a range without line numbers comes earlier; only when no range contains the line does it answer the first range without line numbers, and null when there is none. |
| ClassNaming.AllRangesForLine | src/main/java/com/android/tools/r8/naming/ClassNamingForNameMapper.java:169-191 | The nested loops answer the maximal run of consecutive ranges that share the minified range of the first range containing the line. When no range contains the line, they answer just the first range without line numbers if `takeFirstWithNoLineRange` is set and one exists, and the empty list otherwise. |
| ClassNaming.AllRangesStartWithFirstRange | src/main/java/com/android/tools/r8/naming/ClassNamingForNameMapper.java:135-191 | All ranges for a line are empty exactly when there is no first range, start with the first range otherwise, and, when ranges without a line range are not taken, each contains the line. |
| ClassNaming.GetOriginalLineNumber | src/main/java/com/android/tools/r8/naming/ClassNamingForNameMapper.java:538-555 | Without both ranges the line is kept. A single original line is returned as is. Otherwise the line is shifted from the minified range to the original range with Java `int` arithmetic: the result is a Java `int` congruent to the shifted line modulo 2^32. |
| ClassNaming.LineTranslationIsShift | src/main/java/com/android/tools/r8/naming/ClassNamingForNameMapper.java:547-553 | When the two ranges have the same length and the original range lies within the Java `int` range, translation maps the minified range onto the original range and preserves distances between lines. |
| ClassNaming.ShiftWrapsAround | src/main/java/com/android/tools/r8/naming/ClassNamingForNameMapper.java:553 | The shift wraps around: minified range 0:100 mapped to original lines 2147483640:2147483647 translates line 50 to -2147483606. |
| ClassNaming.Hash | src/main/java/com/android/tools/r8/naming/ClassNamingForNameMapper.java:598-606 | The mapped-range hash is a Java `int`. |
| ClassNaming.SameMappingIgnoresSequenceNumber | src/main/java/com/android/tools/r8/naming/ClassNamingForNameMapper.java:579-606 | Mapped-range equality compares everything but the sequence number. Equal ranges have equal hashes. |
| ClassNaming.AddMappingInformation | src/main/java/com/android/tools/r8/naming/ClassNamingForNameMapper.java:486-495 | New mapping information is added when every existing entry allows it; otherwise the entry that does not is reported and the list is unchanged. |
| ClassNaming.BuilderAddMappingInformation | src/main/java/com/android/tools/r8/naming/ClassNamingForNameMapper.java:107-120 | The builder adds mapping information under the same rule and reports the conflicting entry. |
| ClassNaming.CombineAsWritten | src/main/java/com/android/tools/r8/naming/ClassNamingForNameMapper.java:272-300 | As written, combining succeeds exactly for matching names when one side is empty, and yields the other side. Different original names fail with the maps-back message, and different renamed names with the maps-forward message as the source builds it, from the original names. |
| ClassNaming.CombineDiffersOnlyInForwardMessage | src/main/java/com/android/tools/r8/naming/ClassNamingForNameMapper.java:272-300 | The source's `combine` and the corrected one give the same result on every input except a clash of renamed names, where both fail, with different messages. |
| ClassNaming.Combine | src/main/java/com/android/tools/r8/naming/ClassNamingForNameMapper.java:272-300 | Combining succeeds exactly for matching names when one side is empty, and yields the other side. Different original names fail with the maps-back message, and different renamed names with the maps-forward message. |
| ClassNaming.CombineWith | src/main/java/com/android/tools/r8/naming/ClassNamingForNameMapper.java:272-300 | The shared checks of `combine` with the maps-forward message as a parameter; its outcomes are stated by `CombineAsWritten`, `Combine` and `CombineKeepsAllMembers`. |
| ClassNaming.CombineKeepsAllMembers | src/main/java/com/android/tools/r8/naming/ClassNamingForNameMapper.java:293-297 | A successful combine keeps every method and field member of both sides and the two names. |
| ClassNaming.ForwardMessageAsWrittenIgnoresRenamedNames | src/main/java/com/android/tools/r8/naming/ClassNamingForNameMapper.java:283-291 | As written, the maps-forward message depends only on the original name: two different renamed names give the same message. |
| ClassNaming.ForwardMessageNamesBothRenamedNames | src/main/java/com/android/tools/r8/naming/ClassNamingForNameMapper.java:283-291 | The corrected maps-forward message contains both renamed names. |
| ClassNaming.ForwardMessageDistinguishesClashes | src/main/java/com/android/tools/r8/naming/ClassNamingForNameMapper.java:283-291 | The corrected message tells apart clashes with different renamed names. |
| ClassNaming.AppendMatching | src/main/java/com/android/tools/r8/naming/ClassNamingForNameMapper.java:336-345 | The loop appends, in order, exactly the members with the looked-up original name. |
| ClassNaming.Matching | src/main/java/com/android/tools/r8/naming/ClassNamingForNameMapper.java:336-345 | The members with a given original name, in order: a member is kept exactly when it has that name, and the result is no longer than the input. |
| ClassNaming.LookupByOriginalName | src/main/java/com/android/tools/r8/naming/ClassNamingForNameMapper.java:334-347 | Lookup returns the matching method members, then the matching field members; a member is returned exactly when it has the original name. |
| ProguardTypeMatcher.StarEnd | src/main/java/com/android/tools/r8/shaking/ProguardTypeMatcher.java:390-398 | A run of one to three stars is consumed as one wildcard. |
| ProguardTypeMatcher.MatchFrom | src/main/java/com/android/tools/r8/shaking/ProguardTypeMatcher.java:374-480 | Matching keeps the capture list well formed for the pattern's wildcards; each branch's meaning is stated by `TrailingStars`, `InnerStars`, `QuestionMarkMatchesOneCharacter`, `BackReferenceRepeatsCapture` and `LiteralPatternMatchesExactly`. |
| ProguardTypeMatcher.StarLoop | src/main/java/com/android/tools/r8/shaking/ProguardTypeMatcher.java:413-443 | The star loop keeps the capture list well formed; which split points it tries is stated by `StarLoopTriesSplitPoints`. |
| ProguardTypeMatcher.StopIndex | src/main/java/com/android/tools/r8/shaking/ProguardTypeMatcher.java:416-430 | The first split point at which the loop commits: the first `.` for a single `*`, the first `[` when matching types, otherwise the end of the name; no earlier character is such a stop. |
| ProguardTypeMatcher.StarLoopTriesSplitPoints | src/main/java/com/android/tools/r8/shaking/ProguardTypeMatcher.java:413-443 | The star loop succeeds exactly when some split point from the current one up to the first stop character, or the end of the name, lets the rest of the pattern match with the star capturing the text before it; the captures left by failed attempts never change the outcome. |
| ProguardTypeMatcher.InnerStars | src/main/java/com/android/tools/r8/shaking/ProguardTypeMatcher.java:413-443 | A star run that does not end the pattern matches exactly when some split point, from the current name position up to the first stop character or the end of the name, lets the rest of the pattern match with the run capturing the text before it. |
| ProguardTypeMatcher.LiteralPatternMatchesExactly | src/main/java/com/android/tools/r8/shaking/ProguardTypeMatcher.java:472-479 | A pattern without wildcards matches exactly the equal name. |
| ProguardTypeMatcher.TrailingStars | src/main/java/com/android/tools/r8/shaking/ProguardTypeMatcher.java:400-411 | Trailing stars capture the rest of the name. `***` matches anything; `**` matches unless a type pattern meets an array type; `*` matches under the same condition and only a rest without `.`. |
| ProguardTypeMatcher.IsArrayType | src/main/java/com/android/tools/r8/shaking/ProguardTypeMatcher.java:486-492 | A name is an array type when it has at least two characters and ends in `[]`; used by `TrailingStars`. |
| ProguardTypeMatcher.QuestionMarkMatchesOneCharacter | src/main/java/com/android/tools/r8/shaking/ProguardTypeMatcher.java:445-455 | `?` fails at the end of the name or on a `.`. Otherwise it captures that one character and matching goes on after it. |
| ProguardTypeMatcher.BackReferenceRepeatsCapture | src/main/java/com/android/tools/r8/shaking/ProguardTypeMatcher.java:457-470 | A back reference fails when its wildcard captured nothing or the name does not continue with the captured text. When it does, the match is the match of the rest of the pattern, after the closing `>`, against the name after the repeated text. |
| ProguardTypeMatcher.Create | src/main/java/com/android/tools/r8/shaking/ProguardTypeMatcher.java:70-95 | No pattern gives no matcher. `***`, `...`, `%`, `**` and `*` give their fixed matchers. A pattern without wildcards gives a specific-type matcher. Any other pattern gives a pattern matcher with its wildcards. |
| ProguardTypeMatcher.ClearAll | src/main/java/com/android/tools/r8/shaking/ProguardTypeMatcher.java:354-356 | Clearing the wildcards empties every capture. |
| ProguardTypeMatcher.Matches | src/main/java/com/android/tools/r8/shaking/ProguardTypeMatcher.java:349-358 | `...` throws. `***` matches everything and captures the name. `**`/`*` match class types, `%` matches primitive types, and a specific type matches itself, leaving captures unchanged. A failed pattern match clears its captures. |
| ProguardTypeMatcher.LiteralTypePattern | src/main/java/com/android/tools/r8/shaking/ProguardTypeMatcher.java:472-479 | The scan's rule for literal characters, lifted to a whole matcher: a pattern of literal characters alone, with no wildcards, accepts exactly the type with that name. `create` never builds such a matcher (it makes a specific-type matcher instead), so this states the scan's rule rather than a matcher the program creates. |
| ProguardTypeMatcher.MatchesWithMergedSources | src/main/java/com/android/tools/r8/shaking/ProguardTypeMatcher.java:41-49 | The merged-sources check throws exactly for `...`. Otherwise it matches exactly when the type or one of the types merged into it matches. |
| ProguardTypeMatcher.AnyMatch | src/main/java/com/android/tools/r8/shaking/ProguardTypeMatcher.java:46 | `anyMatch` over the merged sources matches exactly when some source matches, and keeps the captures well formed. |
| ProguardTypeMatcher.MatchFromKeepsEarlierCaptures | src/main/java/com/android/tools/r8/shaking/ProguardTypeMatcher.java:374-480 | Matching from a wildcard position never changes the captures of earlier wildcards. |
| ProguardTypeMatcher.MatchOutcomeIgnoresCaptures | src/main/java/com/android/tools/r8/shaking/ProguardTypeMatcher.java:349-358 | Whether a type matches does not depend on what earlier matches left in the captures. |
| ProguardTypeMatcher.MatcherEqualsIsEquivalence | src/main/java/com/android/tools/r8/shaking/ProguardTypeMatcher.java:499-511 | Matcher equality is an equivalence, and equal pattern matchers have equal hashes. |
| ProguardTypeMatcher.MatcherEquals | src/main/java/com/android/tools/r8/shaking/ProguardTypeMatcher.java:500-507 | `equals`: pattern matchers by kind and pattern text, never by their wildcards; stated by `MatcherEqualsIsEquivalence` and `CreateIgnoresWildcardIdentity`. |
| ProguardTypeMatcher.PatternHash | src/main/java/com/android/tools/r8/shaking/ProguardTypeMatcher.java:509-511 | The pattern matcher `hashCode` from the pattern's string hash and the kind; equal matchers hash equally, stated by `MatcherEqualsIsEquivalence`. |
| ProguardTypeMatcher.CreateIgnoresWildcardIdentity | src/main/java/com/android/tools/r8/shaking/ProguardTypeMatcher.java:88-93 | Two patterns with the same text, both with or both without wildcards, give equal matchers. |

## Left out

- Outline code generation is not modelled because it builds IR and needs the IR builder. This covers `createInstruction`, `OutlineSourceCode`, `OutlineCode`, and assembling the `DexProgramClass` of `buildOutlinerClass`. Method names are represented by their index `k`; the `METHOD_PREFIX` string is not modelled.
- Positions, `isUsed` nulling of the call's return value, and block splitting after the call in blocks with catch handlers are not modelled; they change neither which instructions are replaced nor the call's arguments.
- The rewriter is modelled on the block as the site pass saw it. The insertion of the call and the removal of instructions (`block.removeInstructions`) are given as `ToRemove` and `CallArguments`, not as an edited block.
- `Outliner.CallMatchesProto`: stated only for windows without `assume` instructions, because an assume's in-values are walked by the rewriter but not recorded in the argument map.
- `argumentTypeFromValue` and `argumentTypeFromInvoke` are given per invoke in-value as data: they read dex prototypes and type lattices.
- `getAliasedValue` is modelled as the identity, because assume aliasing lives in the IR.
- The inlining constraint of an invoke (`inliningConstraint`) and `supportedArgumentType` are given as flags on the instruction and value, because they depend on class hierarchy and options.
- `synchronized` blocks and the thread-safe builders are not modelled: the model is sequential.
- `DexType`, `DexMethod` and `DexProto` `slowCompareTo` are not part of this model. They are modelled as lexicographic orders over descriptors and names, which gives the total order the outline order needs.
- Hash codes of dex items and enum constants are parameters (`ItemHashes`), because their definitions are outside the modelled files.
- The `InterfaceProcessorNestedGraphLens` toggling in `selectMethodsForOutlining` and the feature-split check before method identification are left out, because they depend on the application view.
- Methods are identified by a number: `ProgramMethodMultiset` entries and `getDefinition()` identity become equality of that number.
- `Outliner.SelectMethods`: a `LongLivedProgramMethodMultisetBuilder` is modelled as a multiset, and its `size()` as the number of occurrences recorded.
- The site-removal assertion and `checkAllOutlineSitesFoundAgain` run in Java only with assertions enabled. They are modelled as ordinary results.
- `OutlineInstructions.NumberOfInputsCountsInValues`: polymorphic invokes are excluded, because Java counts `numberOfInputs` from the invoked method's prototype while the call site passes the call-site prototype's arguments; see the first finding, and `IntendedNumberOfInputsCountsInValues` for the corrected count.
- `OutlineSpotter.ArgumentMapCountsInputs`: stated outside polymorphic calls only, because as written a polymorphic call can have more argument-map entries than inputs (first finding); `ArgumentMapCountsIntendedInputs` states the count for every window.
- `Sub`: folding of `float` and `double` is left out, because Dafny has no IEEE floating point. The register allocator's `fits` test is a parameter.
- `KeepInfo`: the joiner internals, lens rewriting and `forEachRuleInstance` are left out. They depend on the item factory and the graph lens; the lattice is modelled by a pinned flag and a set of restrictions.
- `StringBuilderNode.RemoveNode`: a node with a self loop is excluded, because the result then depends on hash-set iteration order.
- `MapUtils`: Java's reference-identity `==` in `removeIdentityMappings` is modelled as value equality, and the map factory is a plain map.
- `MapUtils.Transform`: mapped and merged values are never null in the model. In Java a `null` from `valueMapping` is stored, and a later entry with the same key then skips the merge (`existingValue != null`); that path is not modelled.
- `ProguardTypeMatcher.PatternHash`: the Java `int` wrap-around of `pattern.hashCode() * 7 + kind.hashCode()` is not modelled; only equality of hashes for equal matchers is stated.
- `ProguardTypeMatcher.MatchFrom`: a back reference only names an earlier pattern wildcard of the same matcher. In a rule such as `-if class **.Foo -keep class <1>.Bar`, the back reference names a wildcard of another matcher of the rule; captures shared across matchers are not modelled, so such a matcher cannot be stated. For the same reason the "nothing captured" case of `BackReferenceRepeatsCapture` never arises from `Matches`: the earlier wildcard of the same matcher has always captured by then.
- `ProguardTypeMatcher`: the `materialize` copies and the `toString` forms are left out, because they only copy wildcards and print.

## Findings

| source | as written | input that shows it | evidently intended | confidence | as-written member | corrected member |
|---|---|---|---|---|---|---|
| src/main/java/com/android/tools/r8/ir/optimize/Outliner.java:474-477 | an invoke template's `numberOfInputs` counts the invoked method's declared parameters, but the argument map gets one entry per in-value of the call, and a polymorphic call's in-values follow its call-site prototype, so the walk at lines 686-699 and the rewriter can read the map out of step | `MethodHandle.invoke(Object[])` called with prototype `(II)V`: three in-values and three map entries, but `numberOfInputs` is two | one input per in-value of the call, counted from the call-site prototype | not executed; it also needs the polymorphic invoke to pass the movability check, which this model takes as a flag | OutlineSpotter.PolymorphicWindowMisaligned | OutlineSpotter.ArgumentMapCountsIntendedInputs |
| src/main/java/com/android/tools/r8/ir/optimize/Outliner.java:1026-1054 | `includeInstruction` adds to `argumentRegisters` only for arguments of invokes with a receiver; arguments of static invokes and binops are never counted, so the check against `MAX_IN_SIZE` at line 892 sees too few registers | two `invoke-static` calls, each with three new one-register arguments, then an instruction that cannot be included, with `minSize` 2 and `maxSize` 10: one outline with six argument registers | every new argument's registers count toward `MAX_IN_SIZE`, so an outline never needs a range call | not executed | OutlineSpotter.AsWrittenExceedsRegisterBudget | OutlineSpotter.IntendedKeepsRegisterBudget |
| src/main/java/com/android/tools/r8/naming/ClassNamingForNameMapper.java:283-291 | the maps-forward error message prints the original name twice instead of the two clashing renamed names | combining `A -> a` with `A -> b` reports "maps forward to both A and A", the same message as for `A -> x` with `A -> y` | the message names both renamed names | not executed | ClassNaming.ForwardMessageAsWrittenIgnoresRenamedNames | ClassNaming.ForwardMessageNamesBothRenamedNames |
