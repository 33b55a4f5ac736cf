# Verified model of the reflection runtime

This project models the runtime half of a C++26 reflection library and proves what its
documentation and comments promise: of every well-formed class graph, every run of table, listener and
cache operations, and every call frame. Where the code does not keep a promise on all inputs, the model
has an input that shows it and the exact condition under which the promise holds.
`dafny verify dfyconfig.toml` checks all of it.

## The parts

**Hierarchy lookup** (`graph.dfy`, `lookup_policy.dfy`, `lookup_theorems.dfy`, `member_order.dfy`,
`base_order.dfy`, `lookup.dfy`).
Class descriptors form a graph whose edges carry byte offsets. `LookupPolicy` says what each lookup
computes; `Lookup` holds the loops, each proved to compute it; `LookupTheorems` relates the lookups to
each other and to base paths. The central results are about paths, not about the recursion: a path is
*unhidden* when it reaches a declaration of the name past no other one, and two subobjects offer a name
when two unhidden paths end in different classes or at different offsets. The code counts all paths,
hidden ones included, and `AmbiguityIsExact` shows that the two tests agree. `MemberOrder` gives the order of
lookup across names, again by paths.

**Dispatch state** (`dispatch_policy.dfy`, `dispatch.dfy`). A table shares a live cell that points to
the current generation. `DispatchPolicy` is a transition system over the history of generations, with
theorems over arbitrary runs of its steps. `Dispatch` has the classes with their aliasing; each method
is proved to be one step of that system, and isolation of captured handles is proved once more on the heap,
for any program run through any tables over one cell.

**Wrapping** (`wrapping.dfy`). A wrapper function gets an `original` that turns its arguments into a new
frame and sends it through the validator to the wrapped target. The model runs targets with that frame,
its bindings and its refusals, over any world that user code may change, and compares the result with
plain C++ composition.

**Observation** (`observation_policy.dfy`, `observation_theorems.dfy`, `observation.dfy`). Delivery of
completion events is a stack machine whose actions are chosen by the program, its targets and its
listeners, so subscribing, unsubscribing, throwing and recursive calls may happen inside any callback.
The delivery contract `Lawful` is a predicate on event traces alone, and every run obeys it. The classes
share listener objects between lists, snapshots and subscriptions, and one state between handles with
different schemas; each method is one action. `ownership.dfy` adds what callbacks own and what their
destruction ends. `completions.dfy` chains completions, and `stacking.dfy` runs any number of observation
layers, each with its own listeners, snapshots and reentrant deliveries.

**The checked call path** (`types.dfy`, `calls.dfy`) and **structural binding plans**
(`fold.dfy`, `plans.dfy`, `plan_cache.dfy`). Validation of a frame is proved exact against the unchecked use that
follows. A plan is built from the same lookups, and the cache, which is keyed by raw addresses that get
reused, is proved to agree with rebuilding.

## Modelling decisions

- A descriptor is an immutable finite tree value and its `id` stands for its address. `WellFormed` is
  what `generate_class` provides: under one class, a name (and an address) identifies one descriptor, and
  every base edge is described under its own name. Methods that walk the graph do not ask for it;
  they handle null descriptors as the code does. Parameter types are normalised spellings.
- User code is an environment. A call takes a `Reply` that says whether preparing the parameters throws,
  the body throws, or a result comes back, and how the callable leaves the caller's argument views; a run
  of the observation machine is any sequence of actions. The views are taken not to change between
  validation and the binding of the last parameter.
- Addresses and owners are numbers, and a null view has address 0. Contents of objects are not modelled,
  only which storage is moved from and which is written through.
- `Live.published`, `ListenerCell.id`, `ObservationState.issued` and `ObservationState.trace` are ghost
  records used by the proofs.
- A map from operation keys is visited in the order of its keys; other maps and sets in no particular order.
- The requirements of an interface have distinct names, being the data members of one struct.

## Where the code and its documentation differ

The model follows the code in each case.

- `docs/content/architecture/dynamic.md:34` says that nested wraps compose as B(A(target)). Of the frames a
  slot accepts, its wrappers accept and pass on exactly those with `Wrapping.MayWrap`
  (`Wrapping.LetsThroughIff`), and for these wraps compose (`WrapsCompose`). There are two conditions. The
  declared signature must admit the receiver: a slot may hold a const method where the interface declares a
  mutable one, and then a const call is refused after a wrap (`WrappingAConstMethodBreaks`). And the parameters
  must be `Forwardable`: a by-value parameter is passed on as a consumable argument, so a wrapped
  target that returns a reference of unknown lifetime refuses the inner frame
  (`WrappingAReferenceToUnknownBreaks`), and so does one with a const rvalue reference parameter
  (`WrappingAConstRvalueBreaks`).
- The comment at `include/refl/refl.hpp:1971-1973` puts direct bases first. For `A : X` and `C : A, B` the code
  lists A, X, B (`BaseOrder.DirectBaseComesLate`). The order is that of the depth-first walk
  (`AllBasesOrder`); direct bases come first exactly if that walk meets them all before any other class
  (`DirectBasesFirst`), which, if no direct base is also an indirect one, means that none but the last has
  bases (`DirectBasesFirstIffLeaves`).
- The comment at `include/refl/refl.hpp:1562-1566` has the plural views omit an ambiguous member. Two sibling
  bases that declare a name are ambiguous and both listed (`LookupTheorems.SiblingsAreListed`), as the end of the
  same comment says. An ambiguous name is omitted exactly if every class that offers it is found in
  several places (`AmbiguousNameOmitted`).

Two things that the code does for tidiness or safety have a visible side:

- Erasing inactive listeners (`include/refl/extensions/observed.hpp:90`) destroys their callbacks, and a callback
  may own the `Subscription` of another listener, which then ends (`Ownership.ErasingIsObserved`). It
  cannot be observed exactly if no destroyed listener's callback owns the token of an active one
  (`Ownership.CompactionIsUnobservable`), for which it is enough that the tokens of active listeners are owned
  by callbacks of active listeners only (`Ownership.OrderlyPlay`).
- The check of a retained result after the call (`include/refl/runtime/invoke.hpp:59-60`) can fail, although the target
  has run: a callable that has got hold of the caller's argument views can take the owner away from the
  argument that was to keep the result alive (`Calls.AnchorCanBeLost`). It fails in no other case
  (`Calls.AnchorLostIff`).

## Model

| member | source | states |
|---|---|---|
| ClassGraph.OffsetsAreThePathSums | include/refl/refl.hpp:200-211 | the offsets collected for a base are the edge-offset sums of all paths to it, and nothing else |
| ClassGraph.UpcastOffset | include/refl/refl.hpp:239-245 | succeeds exactly when all paths to the base agree on one offset, which it returns; unrelated exactly when there is no path |
| ClassGraph.UpcastsCompose | include/refl/refl.hpp:239-245 | path independence: if the upcast from D to B is unambiguous and M lies between, so are D to M and M to B, and their offsets add up |
| LookupPolicy.IndicesNamedAreExact | include/refl/refl.hpp:1581-1597 | the own indices of a name are strictly increasing, all of that name, and complete |
| LookupPolicy.CollectedIffUnhidden | include/refl/refl.hpp:1603-1617 | the recursive collection gathers exactly the declarations at the end of unhidden paths |
| LookupPolicy.FirstOccurrencesAreExact | include/refl/refl.hpp:1621-1626 | deduplication adds nothing, keeps every (class, index) key, and leaves none twice |
| LookupPolicy.AmbiguityIsExact | include/refl/refl.hpp:1628-1641 | counting all paths to the declaring classes gives two or more exactly when two different subobjects offer the name along unhidden paths |
| LookupPolicy.SoleSubobject | include/refl/refl.hpp:1646-1664 | below the ambiguity limit all collected declarations are the complete own list of one class, every unhidden path ends there, and that class has one offset |
| LookupPolicy.FirstMatchIsFirst | include/refl/refl.hpp:1689-1696 | signature selection returns the first declaration with the parameter types, and none only if there is none |
| LookupPolicy.MatchesIff | include/refl/refl.hpp:1671-1699 | a declaration matches exactly if its parameter types are, one by one, those asked for |
| LookupTheorems.NamedLookupIsThePolicy | include/refl/refl.hpp:1646-1664 | singular lookup returns the one result that the path-based policy allows: own members win, no unhidden declaration is not found, two subobjects are ambiguous, otherwise the first declaration of the one offering class |
| LookupTheorems.NamedHitHasOneOffset | include/refl/refl.hpp:1796-1810 | every hit by name has exactly one offset, so the fallback offset is never taken |
| LookupTheorems.SignatureHitHasOneOffset | include/refl/refl.hpp:1770-1792 | every hit by name and signature has exactly one offset |
| LookupTheorems.LookupsAgree | include/refl/refl.hpp:1646-1725 | signature lookup is ambiguous exactly when plain lookup is, and is otherwise the first match in the plural lookup; a plain hit is the plural lookup's head, and a plain miss leaves it empty |
| LookupTheorems.PluralLookupIsThePolicy | include/refl/refl.hpp:1704-1725 | plural lookup holds exactly the class's own declarations, or else the unhidden ones whose class is found in one place |
| LookupTheorems.AmbiguousNameOmitted | include/refl/refl.hpp:1555-1574 | plural lookup omits an ambiguous name exactly if each class that offers it along an unhidden path is found in several places |
| LookupTheorems.SiblingsAreListed | include/refl/refl.hpp:1704-1725 | two sibling bases that declare a name: singular lookup is ambiguous and plural lookup lists both |
| LookupTheorems.PluralLookupHasNoRepeats | include/refl/refl.hpp:1704-1725 | no declaration is listed twice |
| LookupTheorems.MergedViewIsNamedLookup | include/refl/refl.hpp:1513-1533 | recursive hiding, deduplication and exclusion commute with selection by name: the merged view restricted to a name is the plural lookup of that name, same handles in the same order |
| LookupTheorems.WalkSeesAll | include/refl/refl.hpp:1974-1992 | the pruned depth-first walk sees exactly the names seen before and the names reached, although it never goes below a seen name |
| LookupTheorems.AllBasesAreTheReachable | include/refl/refl.hpp:1971-1992 | all_bases names exactly the classes reached by one or more edges, each once, under handles that are edges of the graph (their order is `BaseOrder.AllBasesOrder`) |
| BaseOrder.AllBasesOrder | include/refl/refl.hpp:1971-1992 | all_bases lists the classes in the order in which the full depth-first walk first meets them |
| BaseOrder.DirectBasesFirst | include/refl/refl.hpp:1971-1992 | direct bases come first exactly if the depth-first walk meets them all before any other class |
| BaseOrder.DirectBasesFirstIffLeaves | include/refl/refl.hpp:1971-1992 | if no direct base is also an indirect one, direct bases come first exactly if none but the last has bases |
| BaseOrder.DirectBaseComesLate | include/refl/refl.hpp:1971-1992 | a class graph in which an indirect base comes before a direct one |
| MemberOrder.MergedOrder | include/refl/refl.hpp:1729-1744 | the merged view lists handles, whatever their names, in the order in which the depth-first walk of unhidden paths first meets their declarations: nearer classes before their bases, earlier bases before later ones, members of one class as declared |
| MemberOrder.MergedMembers | include/refl/refl.hpp:1729-1744 | the merged view lists exactly the declarations at the end of unhidden paths whose class is found in one place |
| MemberOrder.MetBeforeIsStrict | include/refl/refl.hpp:1729-1744 | no two handles are each met before the other, so that the order leaves no choice |
| MemberOrder.OwnMembersLead | include/refl/refl.hpp:1733-1742 | the merged view begins with the class's own members in the order of their declaration |
| MemberOrder.PluralOrder | include/refl/refl.hpp:1704-1725 | plural lookup lists its handles in the order of the same walk |
| MemberOrder.FirstOccurrencesInOrder | include/refl/refl.hpp:1621-1626 | deduplication lists the keys in the order of their first occurrences |
| Lookup.CollectBasePathOffsets | include/refl/refl.hpp:200-211 | the recursive loop computes the path offsets |
| Lookup.CollectOwnIndices | include/refl/refl.hpp:1581-1588 | the loop computes the own indices of a name |
| Lookup.CollectBaseNamed | include/refl/refl.hpp:1603-1617 | appends to what is there exactly what the bases see, in base order, a declaring base hiding its own bases |
| Lookup.DedupDecl | include/refl/refl.hpp:1621-1626 | keeps the first handle of each key, in order |
| Lookup.CountSubobjects | include/refl/refl.hpp:1631-1641 | the sum over distinct class names of their offsets is the number of (class, offset) subobjects |
| Lookup.FindNamed | include/refl/refl.hpp:1646-1664 | returns the result of the path-based policy |
| Lookup.FindNamedSig | include/refl/refl.hpp:1671-1699 | computes signature lookup, early exits included |
| Lookup.FindAllNamed | include/refl/refl.hpp:1704-1725 | computes plural lookup |
| Lookup.ExcludeAmbiguous | include/refl/refl.hpp:1526-1533 | erases exactly the handles whose class is found at more than one offset, keeping the order |
| Lookup.CollectAllUnlocked | include/refl/refl.hpp:1729-1744 | appends the merged view, own members first and then base by base, whose order is that of `MemberOrder.MergedOrder` |
| Lookup.CollectAll | include/refl/refl.hpp:1852-1889 | the four all_ lists: own members first, all in the order of the walk, and for every name at once the plural lookup of that name |
| Lookup.FindFunctionInHierarchy | include/refl/refl.hpp:1770-1792 | finds the declaration that signature lookup finds, with its one offset; null on a miss or an ambiguity |
| Lookup.FindFieldInHierarchy | include/refl/refl.hpp:1796-1810 | finds the declaration that plain lookup finds, with its one offset; null on a miss or an ambiguity |
| Lookup.AllBases | include/refl/refl.hpp:1974-1992 | the recursive walk returns each reachable class once, in the order of the depth-first walk |
| Types.CompatibleIsPartialOrder | include/refl/core/type.hpp:124-130 | signature compatibility is reflexive, antisymmetric and transitive |
| Types.CompatibleIffStrengthened | include/refl/core/type.hpp:124-130 | the compatible signatures are exactly the required one with const, noexcept, both or neither added to it |
| Types.UnsupportedIff | include/refl/core/call.hpp:26-33 | a signature is unsupported exactly if its result or a parameter is volatile, its result is an rvalue reference, or its receiver is volatile or has a reference qualifier |
| Types.KeysAreOrdered | include/refl/core/type.hpp:37-45 | operation keys are strictly and totally ordered: by declaring type, then declaration index, then kind |
| Calls.ObjectView.Get | include/refl/core/value.hpp:46-53 | gives the address exactly for a bound view of the exact type that is not read-only or is read as const |
| Calls.MakeTarget | include/refl/core/call.hpp:88-123 | makes a target, with the signature and options given, exactly when the signature is supported and the callable can be called with it |
| Calls.ArgumentCheckIsExact | include/refl/runtime/invoke.hpp:22-37 | the argument check accepts exactly the arguments whose unchecked dereference is defined and whose category suits the parameter |
| Calls.ArgumentCodes | include/refl/runtime/invoke.hpp:22-37 | when each code comes back for an argument: null, wrong type, a read-only view to be written through, a consumable one for a mutable lvalue reference, or nothing to consume |
| Calls.FirstArgumentErrorIsFirst | include/refl/runtime/invoke.hpp:22-37 | the error of a frame's arguments is that of the first one refused, and there is none only if none is |
| Calls.AcceptedArgumentIsSafe | include/refl/core/call.hpp:35-47 | an accepted argument is bound to its own storage, moved from exactly when a value is taken from consumable writable storage, and written through only where its view is writable |
| Calls.ValidatedArgumentsAreSafe | include/refl/runtime/invoke.hpp:18-37 | once a frame passes, every one of its arguments is used within those rights |
| Calls.ExportCheckIsExact | include/refl/runtime/invoke.hpp:38-57 | the export check passes exactly when the reference may leave; for a retained reference this is exactly that the captured result will carry an owner, for all five lifetimes |
| Calls.ExportCodes | include/refl/runtime/invoke.hpp:38-57 | when each code comes back for a result: a value asked for as a reference, a reference that may not leave, a retained one without owner |
| Calls.AcceptedFrames | include/refl/runtime/invoke.hpp:10-57 | which frames the whole validator lets through, independently of its order of checks |
| Calls.FrameCodes | include/refl/runtime/invoke.hpp:5-57 | which code and argument index the first failing check reports, check by check |
| Calls.MovedExactly | include/refl/core/call.hpp:35-47 | a call moves from exactly the writable consumable arguments of by-value parameters that were prepared |
| Calls.CapturedResult | include/refl/core/call.hpp:104-119 | what comes back has the declared kind, type and address: nothing for void, an own value for a value, and for a reference a view that is writable exactly if the referred type is not const and that carries the owner the lifetime names |
| Calls.RetainedResultKeepsItsOwner | include/refl/core/call.hpp:48-60 | a frame accepted for a retained reference yields a result that keeps alive the owner named by the declared lifetime: the receiver's, the chosen argument's, the callable's context or the external one |
| Calls.CompatibleAcceptsMore | include/refl/core/type.hpp:124-130 | a frame that passes the support, arity, receiver and argument checks of a required signature passes those of every compatible one |
| Calls.ConstCallNeedsConstMethod | include/refl/runtime/invoke.hpp:12-21 | a const call on a bound receiver passes only for a const method |
| Calls.AnchorLostIff | include/refl/runtime/invoke.hpp:58-61 | after validation a retained result lacks an owner exactly if its lifetime is that of an argument whose view the callable has left without one |
| Calls.AnchorCanBeLost | include/refl/runtime/invoke.hpp:58-61 | an accepted frame and a callable for which the check after the call fails |
| Calls.CheckArguments | include/refl/runtime/invoke.hpp:22-37 | the scan reports the first refused argument and its code |
| Calls.InvokeTarget | include/refl/runtime/invoke.hpp:5-62 | a refused frame means its diagnostic, with member and argument index, nothing entered and nothing moved from; otherwise the target is entered once the parameters are made, and the result is what it answered at the address it answered, what it threw, or a missing owner exactly if the callable took the owner away from the argument that keeps the result alive |
| Calls.Invoke | include/refl/runtime/invoke.hpp:63-74 | the diagnostic of an unresolved handle or a refused frame, with nothing run; otherwise what the target answered, captured, or threw; a completion follows a captured result and nothing else |
| DispatchPolicy.RetiredGenerationsAreFrozen | include/refl/dynamic/dispatch_table.hpp:72-103 | no run of replace, restore, reset and detach changes a generation that is no longer live |
| DispatchPolicy.BaselinesAreFrozen | include/refl/dynamic/dispatch_table.hpp:72-103 | no run changes the baseline or native storage of any generation, the live one included |
| DispatchPolicy.StepLaws | include/refl/dynamic/dispatch_table.hpp:72-103 | what each operation installs: a replace or restore puts its target in the one slot and changes no other, a reset fills every slot and baseline with its targets, a detach keeps the independent slots as they are; if refused, nothing changes |
| DispatchPolicy.UntouchedSlotsStay | include/refl/dynamic/dispatch_table.hpp:72-103 | a slot keeps its target through every run that neither writes it nor publishes |
| DispatchPolicy.InstalledTargetsResolve | include/refl/dynamic/dispatch_table.hpp:72-89 | a target that a replace or a reset installed is what its key resolves to, through every such run |
| DispatchPolicy.AcceptsIff | include/refl/dynamic/dispatch_table.hpp:16-24 | a target fits a key exactly if it is for that operation and its signature is that of a schema entry of the key with const or noexcept added |
| DispatchPolicy.SchemaForConcat | include/refl/dynamic/dispatch_table.hpp:31-36 | the operations of one kind are chosen from a schema in its order |
| DispatchPolicy.CapturedSeesOnlyItsGeneration | include/refl/dynamic/dispatch_table.hpp:48-57 | a captured handle follows the live one, through failed resets too, up to the next reset or detach that goes through, and resolves unchanged through every run after it |
| DispatchPolicy.ReachableSlotsFit | include/refl/dynamic/dispatch_table.hpp:16-24 | in every reachable state every current and baseline target of every generation fits its schema entry |
| DispatchPolicy.NativeStorageIsOwned | include/refl/dynamic/dispatch_table.hpp:79-89 | in every reachable state the native storage of every generation is absent or kept alive by an owner |
| DispatchPolicy.HandleFailsOnlyWithNotFound | include/refl/core/call.hpp:158-171 | in every reachable state a handle of the table, live or captured, resolves the slot or fails with not_found because it is empty |
| DispatchPolicy.ResetCoversTheSchema | include/refl/dynamic/dispatch_table.hpp:79-89 | equal sizes and validation key by key imply that the installed keys are exactly those of the schema |
| DispatchPolicy.CompleteUntilDetached | include/refl/dynamic/dispatch_table.hpp:72-96 | a complete live generation stays complete through every run without detach, failed steps included |
| DispatchPolicy.ResetCompletes | include/refl/dynamic/dispatch_table.hpp:79-96 | after a reset every operation stays resolvable through every run without detach |
| DispatchPolicy.RestoreUndoes | include/refl/dynamic/dispatch_table.hpp:90-96 | one restore brings back the target of the last reset that went through, whatever came between but a detach, changing no other slot |
| DispatchPolicy.NothingToRestoreAfterDetach | include/refl/dynamic/dispatch_table.hpp:90-103 | after a detach every restore fails until a reset succeeds |
| DispatchPolicy.WrapsNest | include/refl/dyn.hpp:78-110 | any sequence of wraps nests in the one slot and touches nothing else |
| DispatchPolicy.WrappedDependency | include/refl/dyn.hpp:82-87 | the dependency of a wrapped target is the maximum of those of its parts: native exactly if one of them is, independent exactly if all are |
| DispatchPolicy.WrappersInherit | include/refl/dyn.hpp:78-110 | each wrapper has the declared signature, holds its function and closure around what the slot held when it was installed, and has the options of the innermost target but for the dependency |
| Wrapping.ForwardingIsExact | include/refl/dyn.hpp:91-95 | in a call that entered a wrapper, the frame passed to the wrapped target is accepted exactly if no parameter is a const rvalue reference and the result is a value, its lifetime is known, or no parameter is by value; else the reason is one of two named ones |
| Wrapping.ForwardedBindings | include/refl/refl.hpp:505-515 | forwarding binds each reference parameter to the same storage with the declared rights and moves each value parameter, never copying it |
| Wrapping.ResultsComeBack | include/refl/dyn.hpp:96-101 | the result that a wrapped target captures can always be fetched as the declared type |
| Wrapping.EnteredIff | include/refl/runtime/invoke.hpp:17-21 | a wrapped slot accepts exactly the frames it accepted before whose receiver the declared signature admits |
| Wrapping.LetsThroughIff | include/refl/dyn.hpp:89-107 | of the frames a slot accepts, its wrappers accept and pass on exactly those that may be wrapped |
| Wrapping.WrapsCompose | include/refl/dyn.hpp:78-110 | for every frame that a slot accepts: any number of wraps accept it and pass it on exactly if the declared signature admits the receiver and the parameters can be forwarded, and then the slot behaves, validator included, as the plain composition of its wrapper functions around what it held, last one outermost |
| Wrapping.UnforwardableWrapsBreak | include/refl/dyn.hpp:90-95 | if they cannot, each call of `original`, by any of the wrapper functions, raises the named fault with nothing run |
| Wrapping.WrappingAConstMethodBreaks | include/refl/dyn.hpp:90 | wrapping a const method in the slot of a mutable one makes the slot refuse a const call that it took before |
| Wrapping.WrappingAReferenceToUnknownBreaks | include/refl/runtime/invoke.hpp:46-49 | wrapping int& f(int) with default options breaks a call that the target itself accepts |
| Wrapping.WrappingAConstRvalueBreaks | include/refl/runtime/invoke.hpp:33-36 | wrapping a function of a const rvalue reference breaks a call that the target itself accepts |
| DispatchPolicy.MaxRankZero | include/refl/dyn.hpp:82-87 | that maximum is independence exactly when every part is independent |
| DispatchPolicy.WrappedSurvivesDetach | include/refl/dynamic/dispatch_table.hpp:97-103 | after a detach a wrapped slot resolves to the wrapped target it held if the target and every wrapper are independent, and otherwise to nothing |
| Dispatch.SchemaErrorIsExact | include/refl/dynamic/dispatch_table.hpp:38-47 | the constructor's scan complains exactly about schemas with an unsupported or noexcept signature or a repeated key |
| Dispatch.SchemaErrorCodes | include/refl/dynamic/dispatch_table.hpp:38-47 | the complaint is about the first bad entry and says what is wrong with it |
| Dispatch.DispatchTable.Create | include/refl/dynamic/dispatch_table.hpp:38-47 | makes an empty table exactly for an acceptable schema, or reports the first complaint |
| Dispatch.DispatchTable.Validate | include/refl/dynamic/dispatch_table.hpp:16-24 | passes exactly when the target fits the schema entry of the key; otherwise not_found exactly for a key outside the schema and type_mismatch exactly for one inside |
| Dispatch.DispatchTable.Replace | include/refl/dynamic/dispatch_table.hpp:72-78 | is one replace step on the shared history (`DispatchPolicy.StepLaws`); a failure changes nothing |
| Dispatch.DispatchTable.Reset | include/refl/dynamic/dispatch_table.hpp:79-89 | is one reset step (`DispatchPolicy.StepLaws`), publishing a new generation; a failure changes nothing, with the error of the first failing guard, or of the first refused target in the map's order |
| Dispatch.DispatchTable.Restore | include/refl/dynamic/dispatch_table.hpp:90-96 | is one restore step; fails with not_found exactly when there is no baseline |
| Dispatch.DispatchTable.DetachNative | include/refl/dynamic/dispatch_table.hpp:97-103 | is one detach step: a new generation with the independent slots, no baseline and no native storage |
| Dispatch.DispatchTable.Target | include/refl/dynamic/dispatch_table.hpp:67-71 | reads the slot of the current generation |
| Dispatch.DispatchTable.Dispatch | include/refl/dynamic/dispatch_table.hpp:48-52 | a handle over the operations of one kind that follows the live cell |
| Dispatch.DispatchTable.Capture | include/refl/dynamic/dispatch_table.hpp:53-57 | a handle over the operations of one kind that pins the generation current now |
| Dispatch.DispatchTable.Resolve | include/refl/core/call.hpp:158-171 | a live handle resolves in the current generation, a captured one in the one it pins, and the only failure is not_found |
| Dispatch.PerformAll | include/refl/dynamic/dispatch_table.hpp:59-103 | any program of operations, through any tables over one cell, takes the cell through the run of its steps and only ever adds generations |
| Dispatch.RetiredStayAsTheyAre | include/refl/dynamic/dispatch_table.hpp:59-103 | on the heap, such a program changes no generation but the one that was live |
| Dispatch.CaptureIsPinned | include/refl/dynamic/dispatch_table.hpp:53-57 | on the heap, a captured handle resolves the same for good once a reset or detach through any table has published another generation |
| Dispatch.Dyn.Wrap | include/refl/dyn.hpp:78-110 | is one wrap of the slot's target, its options inherited and its dependency combined; fails with not_found exactly for an empty slot |
| ObservationTheorems.EveryRunIsLawful | include/refl/extensions/observed.hpp:57-72 | every run obeys the delivery contract, whatever its callbacks do: order, entitlement, one end for each call, and nested calls that run to their end first |
| ObservationTheorems.OutsideLaws | include/refl/extensions/observed.hpp:52-95 | what subscribing, unsubscribing, erasing and preparing a call change and record, and what they leave alone |
| ObservationTheorems.InsideLaws | include/refl/extensions/observed.hpp:65-69 | what failing, capturing, returning from a callback and throwing from one record: a throw puts the call and its listener into the error sink first, a return puts nothing there, and delivery goes on either way |
| ObservationTheorems.EveryThrowIsSunk | include/refl/extensions/observed.hpp:67-68 | in every run the error sink has had one exception for each that left a callback |
| ObservationTheorems.AfterLeavesActive | include/refl/extensions/observed.hpp:90-93 | after a subscription the list has the listeners that are active and the new one last |
| ObservationTheorems.DeliveryIsEntitled | include/refl/extensions/observed.hpp:60-66 | a delivery reaches only a listener of the call's key that subscribed before the call was prepared and has not unsubscribed |
| ObservationTheorems.DeliveriesInOrder | include/refl/extensions/observed.hpp:65-69 | the deliveries of one call come in subscription order, no listener twice |
| ObservationTheorems.FailedCallDeliversNothing | include/refl/runtime/invoke.hpp:70-73 | a call that is refused or whose target throws delivers to nobody |
| ObservationTheorems.NobodyIsForgotten | include/refl/extensions/observed.hpp:65-69 | when a call completes, every listener of its key that subscribed before it was prepared and is still subscribed has had its delivery |
| ObservationTheorems.ThrowsChangeNoDelivery | include/refl/extensions/observed.hpp:67-68 | a run in which listeners throw has, but for the error sink, the trace of the run in which they return |
| ObservationTheorems.NestedCallsAreSynchronous | include/refl/extensions/observed.hpp:65-69 | between the preparation of a nested call and any later event of the call around it, the nested call fails or completes |
| ObservationTheorems.ErasingIsUnobservable | include/refl/extensions/observed.hpp:90-93 | erasing any inactive listeners at any time, during nested deliveries too, gives the trace of a list that only grows, as far as the list alone is concerned |
| Ownership.EveryPlayIsLawful | include/refl/extensions/observed.hpp:51-52 | the delivery contract holds whatever tokens callbacks own and whenever callbacks are destroyed |
| Ownership.LetGoIsDestroyed | include/refl/extensions/observed.hpp:29-38 | in every run a listener's callback is destroyed exactly when neither the list nor a snapshot holds the listener any more, and no callback that is gone still owns the token of an active listener |
| Ownership.HolderIsLastGiven | include/refl/extensions/observed.hpp:41-52 | in every run, destructions included, a token is owned by the callback it was last given to |
| Ownership.DestroyedInTurn | include/refl/extensions/observed.hpp:29-38 | the subscriptions that one move ends by destruction end in the subscription order of the callbacks that owned their tokens |
| Ownership.CompactionIsUnobservable | include/refl/extensions/observed.hpp:82-95 | with destructions, traces agree at every point with those of a list that only grows exactly if no destroyed listener's callback owns the token of an active listener |
| Ownership.GrowingListKeepsAll | include/refl/extensions/observed.hpp:36 | over a list that only grows no listener is ever destroyed |
| Ownership.OrderlyNext | include/refl/extensions/observed.hpp:90 | if only callbacks of active listeners own tokens of active listeners, the next move ends no subscription by destruction |
| Ownership.OrderlyPlay | include/refl/extensions/observed.hpp:90 | a program that keeps to that at every move cannot observe erasing |
| Ownership.ErasingIsObserved | include/refl/extensions/observed.hpp:51-52 | a program in which erasing a listener ends the subscription of another, so that a call is not delivered to it |
| Observation.ObservationState.EraseInactive | include/refl/extensions/observed.hpp:90 | keeps exactly the active listeners, in order |
| Observation.ObservedHandle.After | include/refl/extensions/observed.hpp:82-95 | is one subscription on the state shared with other handles, refused exactly for a null schema or a key outside this handle's, and then nothing changes |
| Observation.ObservationState.Unsubscribe | include/refl/extensions/observed.hpp:52 | ends one listener in every list and snapshot that shares it |
| Observation.ObservationState.Prepare | include/refl/extensions/observed.hpp:60 | takes the call's snapshot of the listener list |
| Observation.ObservationState.Fail | include/refl/runtime/invoke.hpp:71-73 | the call ends without an event |
| Observation.ObservationState.Capture | include/refl/runtime/invoke.hpp:72 | the result is captured and delivery over the snapshot begins |
| Observation.ObservationState.Skip | include/refl/extensions/observed.hpp:65-66 | stops at the next listener that is active now and listens to the key |
| Observation.ObservationState.Deliver | include/refl/extensions/observed.hpp:65-69 | enters the next callback, or completes the call |
| Observation.ObservationState.LeaveCallback | include/refl/extensions/observed.hpp:67-68 | delivery goes on after a callback whether it returned or threw; what it threw goes to the sink first |
| Observation.Subscription.Release | include/refl/extensions/observed.hpp:52 | ends the subscription held, if any, and holds none afterwards |
| Observation.Subscription.MoveFrom | include/refl/extensions/observed.hpp:47-50 | ends the subscription held and takes over the other's; a move onto itself changes nothing |
| Observation.ObservedHandle.AfterMember | include/refl/extensions/observed.hpp:96-107 | subscribes to the one operation a schema has for a member; not_found if there is none, ambiguous if there are more |
| Observation.OfMemberIsExact | include/refl/extensions/observed.hpp:96-107 | the operations of a member are exactly the schema's, and more than one means two entries |
| Completions.LayersTakeTurns | include/refl/core/call.hpp:175-191 | a call through a chain of completions prepares each layer once, innermost first, and on success completes each that asked for it once, in the same order |
| Completions.InnerLayersFirst | include/refl/core/call.hpp:175-191 | of several recording completions all are prepared before entry and all called after the capture, each once, the inner ones first |
| Stacking.EveryLayerIsLawful | include/refl/extensions/observed.hpp:57-72 | each of any number of observation layers over one handle, with its own listeners and reentrant deliveries, obeys the delivery contract in every run |
| Stacking.MoveLaws | include/refl/core/call.hpp:175-191 | which layers each move acts on and how: a call and a failure on those inside its entry, a completion and a callback on its own layer alone |
| Stacking.LayersStayInStep | include/refl/core/call.hpp:184-188 | in every run a call that is being delivered in one layer has finished with the layers further in and has not begun with those further out |
| Plans.FirstBindingIsFirst | include/refl/dyn/proxy.hpp:358-362 | overload selection takes the first candidate whose signature is the required one with const or noexcept added, and fails only if there is none |
| Plans.CandidatesAreTheLookup | include/refl/dyn/proxy.hpp:348-354 | binding is ambiguous exactly when runtime lookup of the name is, and otherwise chooses from exactly the plural lookup |
| Plans.PlanIsOfItsDescriptor | include/refl/dyn/proxy.hpp:340-341 | a plan belongs to the descriptor it was built for |
| Plans.PlanMeetsTheInterface | include/refl/dyn/proxy.hpp:340-380 | a plan binds every required overload to the first fitting declaration of the plural lookup, and every property to the result of plain lookup, which has its type and writability |
| Plans.PlanBindsNothingElse | include/refl/dyn/proxy.hpp:340-380 | a plan binds no name that the interface does not require |
| Plans.PlanExistsIffBindable | include/refl/dyn/proxy.hpp:340-380 | there is a plan exactly when no required name is ambiguous, every overload is supported and has a compatible declaration in the plural lookup, and every property is found with its type and writability |
| Plans.SelectionCodes | include/refl/dyn/proxy.hpp:356-363 | selection fails at the first overload that cannot be bound: unsupported if its signature is, else type_mismatch |
| Plans.BindingCodes | include/refl/dyn/proxy.hpp:347-380 | which code a requirement fails with: ambiguous exactly if plain lookup is, not_found or type_mismatch for a property, the code of the first unbindable overload for a method |
| Plans.PlanFailsFirst | include/refl/dyn/proxy.hpp:340-380 | a failed plan has the error of the first requirement that fails, all before it having been bound |
| Plans.BindOverloads | include/refl/dyn/proxy.hpp:356-363 | the selection loop, with the error of the first overload that cannot be bound |
| Plans.BuildPlan | include/refl/dyn/proxy.hpp:340-380 | the loop over the interface's fields computes the plan, or the error of the first field that fails |
| PlanCaching.OwnedIffPlanned | include/refl/dyn/proxy.hpp:335-340 | a plan keeps a descriptor alive exactly if the cache has a live plan under its address |
| PlanCaching.MemoryLaws | include/refl/dyn/proxy.hpp:333-339 | what allocating, letting go, dropping and storing change in memory, and what they leave alone: descriptors live on exactly while they are held or owned by a plan |
| PlanCaching.ReleaseKeeps | include/refl/dyn/proxy.hpp:335-339 | the cache stays consistent when a caller lets go of a descriptor, whose address may then be reused |
| PlanCaching.DropKeeps | include/refl/dyn/proxy.hpp:335-339 | the cache stays consistent when the last view of a plan goes and its entry expires |
| PlanCaching.PruningKeeps | include/refl/dyn/proxy.hpp:337 | erasing expired entries keeps consistency and leaves no more entries than live plans |
| PlanCaching.StoringKeeps | include/refl/dyn/proxy.hpp:381-382 | entering a new plan keeps consistency |
| PlanCaching.LivePlanIsShared | include/refl/dyn/proxy.hpp:338-339 | a plan that is still held is the one returned for its descriptor |
| PlanCaching.PlanCache.Allocate | include/refl/dyn/proxy.hpp:333-339 | a descriptor may take any address not in use, one with a stale entry included |
| PlanCaching.PlanCache.Release | include/refl/dyn/proxy.hpp:333-339 | frees the descriptor unless a live plan owns it |
| PlanCaching.PlanCache.Drop | include/refl/dyn/proxy.hpp:333-339 | frees a plan, and its descriptor if nobody holds that |
| PlanCaching.PlanCache.Prune | include/refl/dyn/proxy.hpp:337 | erases exactly the expired entries |
| PlanCaching.PlanCache.Obtain | include/refl/dyn/proxy.hpp:333-383 | whatever addresses have been reused, the plan returned equals a plan built now for the descriptor asked about, a live plan is shared, and entries never exceed live plans afterwards |

## Left out

- Compile-time reflection (`generate_class`, dispatch and interface generation): descriptors, schemas and targets are arbitrary inputs.
- The `Object`, `Constructor`, `Field` and `Function` facades, `Registry`, enums, cloning, printing and the normalisation of type spellings: thin layers over what is modelled, or easy.
- Typed overload dispatch by C++ templates (`TypedMethod`) and the typed `Observed<T>` facade: compile-time selection in front of the checked path.
- The expected and actual type uses in a diagnostic; its code, member and argument index are modelled.
- Real memory layout, alignment and destructors; object contents.
- Threads: the mutex around the plan cache is not modelled, and table and listener changes are single-threaded, as the library asks of its callers.
- A call without a bound valid receiver: the source does not check const access there, so `ConstCallNeedsConstMethod` speaks of bound receivers.
- Owner lifetimes: reference counts of table state and callables are not modelled. Those of listeners are, in `Ownership`; destructors of other things a callback owns appear as moves of the program, and the classes in `Observation` leave destruction to `Ownership`.
- The error sink's own actions: what it does to the handle counts as the throwing callback's doing.
- Dispatch.DispatchTable.Replace: code run by the destructor of a replaced target appears as later steps of the run.
- Dispatch.Dyn.Wrap: the declared signature is taken from the schema by key rather than from a compile-time member.
- Wrapping.WrapsCompose: parameters of the facade types `Object`, `ObjectView` and `ArgumentView`, which are forwarded as what they refer to, are not modelled; neither are the moves of by-value results on their way out.
- PlanCaching.PlanCache.Obtain: addresses of base descriptors are not tracked apart from the descriptor that owns them, and the interface is a fixed builder function, for which `Plans.FreshPlan` is the instance proved.
- Plans.PlanMeetsTheInterface: property types are compared by identity only, as in the source.
