# A verified model of the XVM service scheduler, op protocol and assembler structures

This project models the core of the XVM, the runtime and assembler of the Ecstasy language, in Dafny. It also proves what that core promises.

- **Service scheduler** (`service_context.dfy`, module `Scheduler`).
  - A service is an actor. It holds one queue of incoming messages, one queue of responses and one queue of suspended frames.
  - `nextFiber` first runs every response, then files every message as a suspended proto-frame, then chooses a frame by the service's reentrancy policy.
  - `suspendFiber` files a fiber by its status.
  - `execute` interprets a frame chain under a budget of ten ops. It handles the control codes for next, call, return, block, repeat, yield and exception. Exceptions unwind through the guards.
  - Messages and responses decide which requests carry a future and where failures go.
- **Op protocol** (`cond_jump.dfy`, `jump_true.dfy`, `jump_not_null.dfy`, `jump_val.dfy`, `in_place.dfy`, `return_tuple.dfy`).
  - Each op maps an operand and a pc to a next pc or a control code.
  - The op resolves its relative jump offsets.
  - The op writes its fields, and reads them back, in a fixed order.
- **Constant cache** (`object_heap.dfy`). The runtime's first-writer-wins cache of constant handles, including deferred handles, and its table of constant types.
- **Function handles** (`rt_function.dfy`, `bind_ordinals.dfy`).
  - Binding an argument shifts the argument array.
  - Parameter counts and shifts are computed over the chain of bindings.
  - Fully bound handles and their chaining.
  - `invokeBind` and `invokeInvoke`, asynchronous calls, and the immutability and proxy validation of arguments.
- **Templates** (`tuple.dfy`, `enum.dfy`).
  - Tuple bounds and mutability checks, type parameters and rendering.
  - Enumeration ordinal and name tables, with lookups, comparison and equality.
- **Constant pool** (`constant_pool.dfy`).
  - Interning: no constant twice, each at its position.
  - The lookup maps.
  - Condition constants, and module, package and class constants.
  - The names of the core module, including the implicit imports.
  - Bulk registration, and optimisation that compacts the pool.
- **Method structure** (`method_structure.dfy`).
  - The type-parameter prefix, and how annotations are split between the method and its return.
  - The getter, setter and initializer predicates, accessibility and substitutability.
  - Abstract and native flags.
  - The op list of a method body: `Code.add`, `addressOf` and `ensureAppending`.
- **Type information** (`type_info.dfy`).
  - The ordered-map merge of class and default chains.
  - Cached op and auto-conversion lookups.
  - The choice of the most specific conversion.
- **Property bodies and class structures** (`property_body.dfy`, `class_structure.dfy`).
  - The record invariants of a property body, its abstractness and its equality.
  - Singletons, extending, finding contributions, and the class's type parameters.

`base.dfy` holds the shared `Option` and `Result` types, the host faults, and the `AsWritten`/`Corrected` switch that the findings below use. `protocol.dfy` holds the control codes and the object handles that the ops and the scheduler share.

## How the model is built

- Code that changes state in place is a `class` with the source's fields, and its methods have `modifies` clauses. This covers the service, fibers, futures, the constant cache, the pool, the op objects, method code and type info.
- Each such method is proved against a pure specification function of the old state, `ensures (r, St()) == Spec(old(St()), ...)`. The source's promises are then proved as lemmas about that function.
- Pure switches and predicates are functions.
- Loops in the source stay loops, with their invariants.
- Whatever the core calls but does not define is a function-typed parameter. This covers op bodies, continuations, `findGuard`, `isA`, template outcomes, class lookups and fiber readiness.
- A Java `assert` or an `IllegalStateException` becomes the fault `IllegalState`.
- Index, null-dereference and class-cast failures become their own faults.

## Model

| member | source | states |
|---|---|---|
| JumpTrue.Decide | src/org/xvm/asm/op/JumpTrue.java:93 | exactly a Boolean operand is decided, always to the next op or the jump target, and (when the two differ) to the jump target exactly when it is true; any other value is a class-cast failure |
| JumpTrue.MadeOpJumps | src/org/xvm/asm/op/JumpTrue.java:33-39 | the op the deprecated constructor builds reads register `nValue` and, on a Boolean, jumps by `nRelAddr` when true and goes to the next op when false |
| JumpTrue.Process | src/org/xvm/asm/op/JumpTrue.java:71-96 | a missing operand repeats the op, a wrapped exception is raised, a property operand is resolved first with a continuation carrying the address and offset, anything else is decided at once |
| JumpTrue.Targets | src/org/xvm/asm/op/JumpTrue.java:71-96 | every address the op answers, directly or through the continuation, is the next op or the jump target, chosen by the Boolean's value |
| JumpTrue.DeferredAgrees | src/org/xvm/asm/op/JumpTrue.java:80-87 | a resolved property operand is decided exactly as the same value read directly |
| JumpNotNull.Process | src/org/xvm/asm/op/JumpNotNull.java:68-80 | only the Null singleton falls through to the next op; every other register content, including a missing one, jumps by the relative address; a wrapped exception is raised |
| JumpNotNull.Raised | src/org/xvm/asm/op/JumpNotNull.java:76-79 | an exception is raised exactly when the register read threw |
| JumpNotNull.NeverRepeats | src/org/xvm/asm/op/JumpNotNull.java:68-80 | the op never answers a repeat: it raises, or answers one of the two addresses |
| JumpNotNull.Decode | src/org/xvm/asm/op/JumpNotNull.java:45-50 | the reader succeeds exactly when two packed ints are available |
| JumpNotNull.RoundTrip | src/org/xvm/asm/op/JumpNotNull.java:45-59 | reading what `write` emits after the op code gives back the op and leaves the rest of the input untouched |
| CondJump.ResolvedOffset | src/org/xvm/asm/OpCondJump.java:91-108 | an existing offset (or no destination) is kept; otherwise the offset is the destination's address minus the op's own, and a destination not in the code is an assertion failure |
| CondJump.ResolveIdempotent | src/org/xvm/asm/OpCondJump.java:91-108 | resolving an already resolved op changes nothing |
| CondJump.Decode | src/org/xvm/asm/OpCondJump.java:60-69 | the reader takes the argument, the second argument for a binary op, then the offset, and fails exactly when input runs out |
| CondJump.Emitted | src/org/xvm/asm/OpCondJump.java:72-88 | the intended binary form has four ints for a binary op and three for a unary op, and agrees with the written form for unary ops |
| CondJump.UnaryRoundTrip | src/org/xvm/asm/OpCondJump.java:60-88 | for a unary op the reader recovers what `write` emits |
| CondJump.BinaryAsWrittenMisreads | src/org/xvm/asm/OpCondJump.java:72-88 | as written, a binary op's offset is read back as its second argument and the next int as its offset, and the op alone cannot be read back |
| CondJump.RoundTrip | src/org/xvm/asm/OpCondJump.java:60-88 | with the second argument written, every conditional jump, unary or binary, reads back to the same fields |
| CondJump.ProcessUnary | src/org/xvm/asm/OpCondJump.java:126-151 | a missing operand repeats, a wrapped exception is raised, a property operand is resolved first, any other value goes to the unary completion |
| CondJump.ProcessBinary | src/org/xvm/asm/OpCondJump.java:153-209 | the first failing read raises, a missing operand repeats, operands of different classes are an assertion failure, and a property operand makes both operands resolve before the binary completion |
| CondJump.Process | src/org/xvm/asm/OpCondJump.java:121-209 | a completion has the op's arity and address; a resolution asks for both operands of a binary op and the one of a unary op; a failure is only the class mismatch of a binary op; a raise comes from a read that threw; the only control code is a repeat for a missing operand |
| CondJump.UnaryIgnoresSecond | src/org/xvm/asm/OpCondJump.java:121-151 | a unary op never looks at a second operand: it takes the unary path whatever that operand is |
| CondJump.EmittedAsWritten | src/org/xvm/asm/OpCondJump.java:72-88 | as written, `write` emits three ints whatever the arity; a unary op reads back, a binary op does not |
| CondJump.DeferredUnaryAgrees | src/org/xvm/asm/OpCondJump.java:136-142 | a resolved property operand reaches the completion a direct read of the same value reaches |
| CondJump.DeferredBinaryAgrees | src/org/xvm/asm/OpCondJump.java:168-200 | resolving both operands of a binary op reaches the direct completion on the resolved values |
| CondJump.CondJumpOp.ResolveAddress | src/org/xvm/asm/OpCondJump.java:91-108 | the op's offset becomes the resolved offset, and stays as it was on failure |
| CondJump.CondJumpOp.Write | src/org/xvm/asm/OpCondJump.java:72-88 | arguments are encoded when the op was built from them; the output is the as-written form (three ints) or, corrected, the form with the second argument of a binary op |
| CondJump.CondJumpOp.constructor | src/org/xvm/asm/OpCondJump.java:30-52 | a new op holds its operands and destination and has no offset or encoded arguments yet |
| CondJump.CondJumpOp.Read | src/org/xvm/asm/OpCondJump.java:60-69 | a read op holds the encoded arguments and offset the reader took, and no operands or destination |
| InPlace.Process | src/org/xvm/asm/OpInPlace.java:102-140 | for a register target: a repeat exactly when it is missing, a raise of the same exception exactly when the read threw, the register completion on the value otherwise; for a property target: the property completion with the constant's name exactly when the constant is a property, a class-cast failure otherwise; the target is copied exactly for an assigning op whose result is the next register and whose target is read or is a property |
| InPlace.InPlaceOp.constructor | src/org/xvm/asm/OpInPlace.java:26-50 | an op built from arguments holds the target, and the result register exactly when it assigns, and has no encoded registers |
| InPlace.RepeatIsSideEffectFree | src/org/xvm/asm/OpInPlace.java:102-140 | a repeat never comes with a copy, and only an assigning op copies |
| InPlace.Decode | src/org/xvm/asm/OpInPlace.java:58-66 | the reader needs the target, and the result register for an assigning op, and fails exactly when they are missing |
| InPlace.RoundTrip | src/org/xvm/asm/OpInPlace.java:58-88 | reading what `write` emits after the op code gives back the target and result register, assigning or not |
| InPlace.InPlaceOp.Write | src/org/xvm/asm/OpInPlace.java:69-88 | the arguments are encoded when present and the output is op code, target and (when assigning) the result register |
| InPlace.InPlaceOp.Simulate | src/org/xvm/asm/OpInPlace.java:153-159 | exactly one variable is allocated for an assigning op whose result is the next register, none otherwise |
| JumpVal.Process | src/org/xvm/asm/op/JumpVal.java:125-150 | a missing operand repeats, a wrapped exception is raised, a deferred operand is resolved first, any other value goes to `complete` |
| JumpVal.Resume | src/org/xvm/asm/op/JumpVal.java:137-141 | the continuation completes with the resolved value at the same address |
| JumpVal.BuildMapKeys | src/org/xvm/asm/op/JumpVal.java:161-184 | the jump map's keys are exactly the case handles |
| JumpVal.BuildMapLast | src/org/xvm/asm/op/JumpVal.java:161-184 | a case handle maps to the value of its last occurrence in the case table |
| JumpVal.Target | src/org/xvm/asm/op/JumpVal.java:152-159 | corrected completion: a value matching no case jumps by the default offset |
| JumpVal.TargetAsWritten | src/org/xvm/asm/op/JumpVal.java:152-159 | as written, a value matching no case still jumps by the default offset; the completion fails only by indexing out of bounds, and only for a value that matches a case |
| JumpVal.TargetOfCase | src/org/xvm/asm/op/JumpVal.java:152-184 | corrected completion: a value equal to case i, and to no later case, jumps by case i's offset |
| JumpVal.AsWrittenTakesWrongCase | src/org/xvm/asm/op/JumpVal.java:152-184 | as written, with two cases at offsets 1 and 7, the first case jumps by 7; corrected, by 1 |
| JumpVal.JumpMapCorrected | src/org/xvm/asm/op/JumpVal.java:161-184 | corrected, the jump map takes each immutable case handle to its last case number, and any mutable case constant is an assertion failure |
| JumpVal.JumpMapAsWritten | src/org/xvm/asm/op/JumpVal.java:161-184 | as written, with immutable cases and one offset per case, the jump map takes each case handle to its last case offset |
| JumpVal.CompleteTargets | src/org/xvm/asm/op/JumpVal.java:152-184 | looking a value up in the jump map of either variant gives that variant's completion: `TargetAsWritten` or `Target` |
| JumpVal.CheckedBuilds | src/org/xvm/asm/op/JumpVal.java:171-178 | the loop that fills the jump map from case i on, over immutable cases, ends with the map of all cases to the stored values |
| JumpVal.CheckedFindsMutable | src/org/xvm/asm/op/JumpVal.java:171-178 | corrected, a mutable case at or after i fails the fill with an assertion failure |
| JumpVal.CaseHandles | src/org/xvm/asm/op/JumpVal.java:172-176 | one handle per case argument, each the frame's constant handle for it |
| JumpVal.CaseOffsets | src/org/xvm/asm/op/JumpVal.java:110-122 | one offset per case destination, each the resolved offset of that destination |
| JumpVal.DecodePairs | src/org/xvm/asm/op/JumpVal.java:56-74 | reading n case pairs yields n arguments and n offsets |
| JumpVal.PairsRoundTrip | src/org/xvm/asm/op/JumpVal.java:56-101 | reading the case pairs `write` emits gives back the case arguments and offsets |
| JumpVal.RoundTrip | src/org/xvm/asm/op/JumpVal.java:56-101 | reading what `write` emits after the op code gives back the argument, the case table and the default offset |
| JumpVal.JumpValOp.ResolveAddress | src/org/xvm/asm/op/JumpVal.java:110-122 | only while the offsets are unknown are the case offsets and the default offset filled from the destinations; otherwise nothing changes |
| JumpVal.JumpValOp.constructor | src/org/xvm/asm/op/JumpVal.java:33-48 | an op built from arguments holds the value, case arguments, case destinations and default destination, and has no encoded arguments, offsets or jump map |
| JumpVal.JumpValOp.EnsureJumpMap | src/org/xvm/asm/op/JumpVal.java:161-184 | a cached map is answered as is; without case arguments the build fails on null; otherwise the answer is the variant's jump map of the case handles (offsets as written, case numbers corrected), cached exactly when it succeeds |
| JumpVal.JumpValOp.Complete | src/org/xvm/asm/op/JumpVal.java:152-159 | the value is looked up in the jump map of the chosen variant, no entry meaning the default offset; as written a stored offset is then used as an index into the offsets |
| JumpVal.JumpValOp.Read | src/org/xvm/asm/op/JumpVal.java:56-74 | a read op holds the argument, the case arguments and offsets and the default offset the reader took, and no jump map yet |
| ReturnTuple.DistributeSpec | src/org/xvm/proto/op/Return_T.java:75-92 | the assignments are the leading tuple elements into the caller's slots in order; a plain return means every slot was assigned with no R_EXCEPTION or R_BLOCK answer; R_RETURN_EXCEPTION means the last assignment answered R_EXCEPTION |
| ReturnTuple.Process | src/org/xvm/proto/op/Return_T.java:46-99 | a non-negative or local return index is an assertion failure; an unused one returns; a multi-return repeats on a missing tuple, stores a wrapped exception, or distributes the values; any other index passes the tuple as is; caller registers are written only for a multi-return |
| ReturnTuple.DistributeValues | src/org/xvm/proto/op/Return_T.java:79-91 | the loop gives exactly the distribution's answer and assignments (so, by `DistributeSpec`, element k into slot k); it never assigns more slots than there are, nor more values than the tuple holds, and a plain return assigns every slot |
| Heap.GetConstType | src/org/xvm/runtime/ObjectHeap.java:135-223 | the type table over constant formats: value formats have their own type, a class has the `Class` type, maps, properties, methods and types their named Ecstasy types, sets, map entries and packages are unsupported and every other format is illegal |
| Heap.Save | src/org/xvm/runtime/ObjectHeap.java:126-130 | an entry already there wins and is answered; otherwise the new handle is stored and answered |
| Heap.EnsureGrowsCache | src/org/xvm/runtime/ObjectHeap.java:48-124 | the cache only grows, only by the constant asked for; registers and singletons still without a handle are never cached |
| Heap.Ensure | src/org/xvm/runtime/ObjectHeap.java:48-124 | the cache keeps every entry and gains at most the constant asked for; a cached constant is answered from the cache; a call that caches on return leaves the cache as it is |
| Heap.CacheHit | src/org/xvm/runtime/ObjectHeap.java:64-69 | a cached constant answers its cached handle, whatever the templates and singletons would now say |
| Heap.EnsureStable | src/org/xvm/runtime/ObjectHeap.java:48-130 | once a constant is cached, asking again gives the same handle and the same cache: the first writer wins |
| Heap.CachedIffCacheable | src/org/xvm/runtime/ObjectHeap.java:96-104 | a value constant made at once is cached exactly when it is value-cacheable |
| Heap.ObjectHeap.SaveConstHandle | src/org/xvm/runtime/ObjectHeap.java:126-130 | the cache and the answer are those of `Save`, the constant is then cached under the answer, and an existing entry leaves the cache unchanged |
| Heap.ObjectHeap.EnsureConstHandle | src/org/xvm/runtime/ObjectHeap.java:48-124 | the answer and the new cache are those of `Ensure` on the old cache |
| Heap.ObjectHeap.CacheOnReturn | src/org/xvm/runtime/ObjectHeap.java:110-114 | the continuation stores the callee's result the way `Save` does and answers R_NEXT |
| Heap.ObjectHeap.constructor | src/org/xvm/runtime/ObjectHeap.java:35-39 | a new heap caches no constant |
| Enums.MakeEnumHandle | src/org/xvm/runtime/template/xEnum.java:199-204 | handles carry the class and ordinal given and are immutable |
| Enums.Values | src/org/xvm/runtime/template/xEnum.java:57-92 | the enum values are children marked as values, no more of them than there are children |
| Enums.Table | src/org/xvm/runtime/template/xEnum.java:57-92 | the handle table has one entry per value, value i getting ordinal i and its own class |
| Enums.Names | src/org/xvm/runtime/template/xEnum.java:57-92 | the name table has one entry per value, holding the value's name |
| Enums.FirstWithId | src/org/xvm/runtime/template/xEnum.java:220-237 | the position of the first child with the identity, or none when no child has it |
| Enums.ByOrdinal | src/org/xvm/runtime/template/xEnum.java:212-215 | a negative ordinal gives no handle, an ordinal past the table is an index fault, any other gives the handle under it |
| Enums.ByOrdinalIn | src/org/xvm/runtime/template/xEnum.java:212-215 | a negative ordinal gives no handle, a table not yet set is a null dereference, and a set one is looked up as `ByOrdinal` states |
| Enums.IndexOf | src/org/xvm/runtime/template/xEnum.java:206-210 | the first index of a name, -1 exactly when it is absent |
| Enums.Compare | src/org/xvm/runtime/template/xEnum.java:155-161 | the comparison is zero exactly for equal ordinals and negative exactly for a smaller ordinal |
| Enums.Equal | src/org/xvm/runtime/template/xEnum.java:146-168 | values are equal exactly when their ordinals are, and then they compare as zero |
| Enums.Hash | src/org/xvm/runtime/template/xEnum.java:170-175 | every value equal to a value has the ordinal that is its hash |
| Enums.OrderingConsistent | src/org/xvm/runtime/template/xEnum.java:146-175 | comparison is antisymmetric, equality symmetric, and equal values hash alike |
| Enums.HandleEquals | src/org/xvm/runtime/template/xEnum.java:285-293 | handles are equal exactly when class and ordinal agree, and equal handles compare equal and hash alike |
| Enums.EnumTemplate.InitDeclared | src/org/xvm/runtime/template/xEnum.java:57-92 | for an enumeration other than `Enum` itself the tables, null until then, become the names and handles of the values in child order; otherwise nothing changes |
| Enums.EnumTemplate.GetEnumByName | src/org/xvm/runtime/template/xEnum.java:206-210 | with the name table unset the lookup is a null dereference; an unknown name gives no handle; a known one gives the handle under its first index, a null dereference when the handle table is unset, and an index fault past its end |
| Enums.EnumTemplate.GetEnumByOrdinal | src/org/xvm/runtime/template/xEnum.java:212-215 | a negative ordinal gives no handle; otherwise an unset table is a null dereference, and a set one is looked up as `ByOrdinal` states it |
| Enums.EnumTemplate.GetEnumByConstant | src/org/xvm/runtime/template/xEnum.java:220-237 | a class that is not an enumeration is an assertion failure; otherwise the handle of the child with the identity |
| Enums.EnumTemplate.NativeGet | src/org/xvm/runtime/template/xEnum.java:128-143 | `name` gives the name under the ordinal (a null dereference while the names are unset), `ordinal` the ordinal, any other property is the superclass's |
| Enums.EnumTemplate.StringValue | src/org/xvm/runtime/template/xEnum.java:178-184 | the string value is the value's name, given exactly when the names are set and hold the ordinal, and otherwise the same fault that the `name` property gives |
| Enums.TableLookups | src/org/xvm/runtime/template/xEnum.java:57-92 | after initialization value i is found by ordinal i, and by its name when names are distinct |
| Enums.CorrectedFindsValue | src/org/xvm/runtime/template/xEnum.java:220-237 | corrected, with distinct identities, looking a value up by its constant gives the handle made for that very value |
| Enums.LookupByPositionCountsAllChildren | src/org/xvm/runtime/template/xEnum.java:220-237 | as written, with a method before the values A and B, looking up A gives B's handle |
| Tuples.TupleHandle.constructor | src/org/xvm/proto/template/collections/xTuple.java:346-352 | a new tuple handle has the class and values given, no element types, and is mutable |
| Tuples.TupleHandle.Extract | src/org/xvm/proto/template/collections/xTuple.java:166-179 | an index within the count gives the element there; any other gives an out-of-range exception naming the index and the count |
| Tuples.TupleHandle.Assign | src/org/xvm/proto/template/collections/xTuple.java:182-200 | the range is checked before mutability; success happens exactly for an in-range index of a mutable tuple, changes only that slot, and reads back as the new value; a refused assignment changes nothing |
| Tuples.TupleHandle.ElementType | src/org/xvm/proto/template/collections/xTuple.java:203-216 | the same range check as a read, then the element type, a null dereference while no types are set |
| Tuples.TupleHandle.Size | src/org/xvm/proto/template/collections/xTuple.java:219-224 | a missing array is a null dereference; otherwise the size is exactly the bound of the indices a read accepts |
| Tuples.TupleHandle.MakeImmutable | src/org/xvm/proto/template/collections/xTuple.java:116-117 | the handle is no longer mutable |
| Tuples.ParamsOfNamesElements | src/org/xvm/proto/template/collections/xTuple.java:71-88 | the type-parameter map names each element type `ElementTypes[i]` by its index, and has no other keys |
| Tuples.MakeParams | src/org/xvm/proto/template/collections/xTuple.java:314-331 | the loop builds exactly the type-parameter map of the element types |
| Tuples.MakeHandle | src/org/xvm/proto/template/collections/xTuple.java:314-331 | a new mutable handle over the values, of the class for the element types' parameter map (the empty map when there are none) |
| Tuples.ResolveClass | src/org/xvm/proto/template/collections/xTuple.java:71-88 | a tuple type without parameters gives the canonical class; otherwise the class of its resolved element types |
| Tuples.CreateConstHandle | src/org/xvm/proto/template/collections/xTuple.java:91-119 | the tuple of a constant holds the constant's values in a new array, has the class of its types, and is immutable |
| Tuples.RenderTuple | src/org/xvm/proto/template/collections/xTuple.java:227-309 | the text-building loop gives exactly the text `Render` describes, or the exception or fault of the first element without a text |
| Tuples.RenderShowsElements | src/org/xvm/proto/template/collections/xTuple.java:227-309 | a non-empty tuple whose elements all have texts renders as the class text followed by the element texts, comma-separated, in parentheses |
| Tuples.ShowAllTexts | src/org/xvm/proto/template/collections/xTuple.java:283-309 | elements that all have texts give exactly those texts, in order |
| Tuples.TrailIsJoin | src/org/xvm/proto/template/collections/xTuple.java:283-309 | the texts each followed by ", " are their comma-separated join plus one trailing separator, which is what removing the last two characters undoes |
| Tuples.EmptyTupleText | src/org/xvm/proto/template/collections/xTuple.java:227-309 | as written the empty tuple of class `Tuple` renders as `Tupl)`; corrected, as `Tuple()` |
| Binding.Bind | src/org/xvm/runtime/template/_native/reflect/xRTFunction.java:377-398 | a negative index is an assertion fault; when the method is known, an index whose parameter (by the lookup of `getParam`, as written or corrected) is not one of the method's is an index fault; otherwise binding removes one parameter, records the value first, and stays within range exactly when the index is below the parameter count |
| Binding.AdjustAsWritten | src/org/xvm/runtime/template/_native/reflect/xRTFunction.java:187-200 | the as-written renumbering gives one ordinal per ordinal |
| Binding.AdjustAsWrittenAt | src/org/xvm/runtime/template/_native/reflect/xRTFunction.java:187-200 | step i of the as-written renumbering lowers the ordinal by one exactly when it exceeds the ordinal before it |
| Binding.AdjustCorrected | src/org/xvm/runtime/template/_native/reflect/xRTFunction.java:187-200 | the corrected renumbering lowers ordinal i by at most i (the number of earlier bindings) and never raises it |
| Binding.InvokeBind | src/org/xvm/runtime/template/_native/reflect/xRTFunction.java:176-215 | the binding loop gives exactly the result of binding the renumbered ordinals one by one, failing on a missing value, a negative ordinal or, when the method is known, an ordinal past its parameters |
| Binding.UnboundFacts | src/org/xvm/runtime/template/_native/reflect/xRTFunction.java:377-398 | after binding distinct in-range parameters, the parameters left are increasing, exactly the unbound originals, n minus the bound count of them, and y minus the bound ones below any index y |
| Binding.CorrectedFindsParameter | src/org/xvm/runtime/template/_native/reflect/xRTFunction.java:187-200 | corrected, each renumbered ordinal names, in the function the earlier bindings left, the very original parameter the ordinal names |
| Binding.CorrectedBindIsWellBound | src/org/xvm/runtime/template/_native/reflect/xRTFunction.java:176-215 | corrected, binding distinct in-range ordinals with enough values succeeds, whether or not the method is known, stays within range, and removes one parameter per ordinal |
| Binding.TwoOrdinalsAgree | src/org/xvm/runtime/template/_native/reflect/xRTFunction.java:187-200 | for at most two ordinals the as-written renumbering is the intended one |
| Binding.ThirdOrdinalMissesParameter | src/org/xvm/runtime/template/_native/reflect/xRTFunction.java:187-200 | binding parameters 0, 1 and 2 of a three-parameter function passes ordinals 0, 0, 1 as written, where the third must be 0; with the method known, the third binding is an index fault |
| Functions.Underlying | src/org/xvm/runtime/template/_native/reflect/xRTFunction.java:541-550 | following the delegates always ends at an underlying (unbound) function |
| Functions.MutableIffSomeBoundValue | src/org/xvm/runtime/template/_native/reflect/xRTFunction.java:649-652 | a bound handle is mutable exactly when its underlying function or one of its bound values is |
| Functions.ShiftOfOneBinding | src/org/xvm/runtime/template/_native/reflect/xRTFunction.java:655-660 | with a single binding the shift as written is the intended one |
| Functions.ShiftMissesEarlierBinding | src/org/xvm/runtime/template/_native/reflect/xRTFunction.java:655-660 | binding parameter 1 and then 0 of a three-parameter function leaves parameter 2 as argument 0, but as written the shift names the bound parameter 1 |
| Functions.ShiftRight | src/org/xvm/runtime/template/_native/reflect/xRTFunction.java:702-715 | the array copy moves the slots `m..m+n` one to the right and leaves every other slot as it was |
| Functions.BoundArgs | src/org/xvm/runtime/template/_native/reflect/xRTFunction.java:702-715 | binding arguments into the variable array keeps its length |
| Functions.ParamCountBelowUnderlying | src/org/xvm/runtime/template/_native/reflect/xRTFunction.java:718-722 | a well-bound handle has between zero and the underlying function's parameter count of parameters |
| Functions.ParamIndexInRange | src/org/xvm/runtime/template/_native/reflect/xRTFunction.java:725-728 | in a well-bound handle every argument maps, by the corrected lookup, to one of the underlying function's parameters |
| Functions.ParamCount | src/org/xvm/runtime/template/_native/reflect/xRTFunction.java:718-722 | a handle has at most its underlying function's parameters, and at least those less one per bound value |
| Functions.Shift | src/org/xvm/runtime/template/_native/reflect/xRTFunction.java:655-660 | the shift of an index is between zero and the number of bound values |
| Functions.IsMutable | src/org/xvm/runtime/template/_native/reflect/xRTFunction.java:649-652 | a handle over a mutable function, or whose outermost bound value is mutable, is mutable |
| Functions.BoundArgsPlaceArguments | src/org/xvm/runtime/template/_native/reflect/xRTFunction.java:702-735 | for a well-bound handle and an array holding the underlying parameters, binding oversteps no bound and puts every argument j at the parameter `getParam(j)` names (the corrected shift) |
| Functions.ShiftRightInPlace | src/org/xvm/runtime/template/_native/reflect/xRTFunction.java:710-711 | the in-place copy leaves the array as `ShiftRight` describes |
| Functions.ApplyBindings | src/org/xvm/runtime/template/_native/reflect/xRTFunction.java:702-715 | in-place binding leaves the array and the success flag as `BoundArgs` describes, also when a bound is overstepped |
| Functions.FullyBound.constructor | src/org/xvm/runtime/template/_native/reflect/xRTFunction.java:759-764 | a new fully bound handle has its delegate and arguments and no next handle |
| Functions.FullyBound.IsMutableHandle | src/org/xvm/runtime/template/_native/reflect/xRTFunction.java:767-777 | a mutable bound argument makes the handle mutable; otherwise the delegate decides, and a missing delegate is a null dereference |
| Functions.FullyBound.Chain | src/org/xvm/runtime/template/_native/reflect/xRTFunction.java:788-796 | NO_OP chained with a handle is that handle, a handle chained with NO_OP is itself, otherwise the handle becomes the next one, and a next one already set is an assertion failure |
| Functions.FullyBound.AddBoundArguments | src/org/xvm/runtime/template/_native/reflect/xRTFunction.java:780-786 | the delegate binds first, then the bound arguments overwrite the front of the array; a missing delegate is a null dereference that changes nothing |
| Functions.CopyFront | src/org/xvm/runtime/template/_native/reflect/xRTFunction.java:780-786 | the first slots, as many as there are arguments, hold the arguments; the rest are unchanged |
| Functions.CopyFrontInPlace | src/org/xvm/runtime/template/_native/reflect/xRTFunction.java:784-785 | the in-place copy leaves the array as `CopyFront` describes |
| Functions.Prepared | src/org/xvm/runtime/template/_native/reflect/xRTFunction.java:236-288 | the arguments padded with empty slots up to the variable count |
| Functions.FillDefaults | src/org/xvm/runtime/template/_native/reflect/xRTFunction.java:236-288 | every missing argument whose parameter has a default gets the default marker; the first one without a default makes the tuple invalid; an array too short is an index fault |
| Functions.InvokeInvoke | src/org/xvm/runtime/template/_native/reflect/xRTFunction.java:236-288 | more values than parameters is an invalid tuple; a call gets every value at its own index and, for a missing one, the default of the parameter `getParam` names (by `calculateShift` as written, by the corrected shift otherwise); an illegal cast means some value's type is not accepted |
| Functions.ParamLookup | src/org/xvm/runtime/template/_native/reflect/xRTFunction.java:655-660 | `getParam(i)` names underlying parameter i plus the as-written shift, or, corrected, plus the shift the delegate's numbering requires |
| Functions.Validate | src/org/xvm/runtime/template/_native/reflect/xRTFunction.java:1077-1101 | slots before the starting point are never changed and the array keeps its length |
| Functions.FirstEmpty | src/org/xvm/runtime/template/_native/reflect/xRTFunction.java:1077-1101 | the first empty slot from a position, or the length, with every slot before it occupied |
| Functions.ValidateSpec | src/org/xvm/runtime/template/_native/reflect/xRTFunction.java:1077-1101 | validation succeeds exactly when every mutable non-service argument before the first empty slot gets a proxy; those arguments become their proxies and every other slot is unchanged |
| Functions.ValidateImmutable | src/org/xvm/runtime/template/_native/reflect/xRTFunction.java:1077-1101 | validation in place leaves the array and the answer as `Validate` describes |
| Functions.Call1Async | src/org/xvm/runtime/template/_native/reflect/xRTFunction.java:885-906 | a call within the same service is direct and changes nothing; otherwise the arguments are validated, a failed validation raises, and the call is queued on the target service, with a future only when the result is wanted |
| Scheduler.Fiber.constructor | src/org/xvm/runtime/ServiceContext.java:443 | a message's new fiber starts associated or new, neither responded nor timed out |
| Scheduler.Future.constructor | src/org/xvm/runtime/ServiceContext.java:464-475 | a new future is pending and records the service, if any, that its failure removes |
| Scheduler.Depth | src/org/xvm/runtime/ServiceContext.java:351-368 | every frame chain has at least the frame itself |
| Scheduler.AfterCont | src/org/xvm/runtime/ServiceContext.java:296-300 | a continuation changes the frame it works on but not its callers |
| Scheduler.ProtoProceed | src/org/xvm/runtime/ServiceContext.java:610-810 | a request that answers nothing only hands the frame's exception (if any) to the unhandled-exception handler; a construction, a call with several returns, or a call or property read with a return sends exactly one response to the calling fiber, carrying the frame's exception, the request's future and its one result (or all results for several returns); there is no response without a calling fiber (null) and none for a single-result request whose frame has no return value (out of bounds) |
| Scheduler.Unwind | src/org/xvm/runtime/ServiceContext.java:346-368 | the guard search stops at the innermost frame of the caller chain with a guard for the exception (no deeper frame has one), or at the proto-frame when no frame has one |
| Scheduler.Run | src/org/xvm/runtime/ServiceContext.java:255-420 | the interpreter loop processes at most ten ops; it finishes exactly when the fiber terminates, suspends only paused, waiting or yielded, pauses only after ten ops at a valid address, and only adds to what was sent |
| Scheduler.Stepped | src/org/xvm/runtime/ServiceContext.java:260-276 | running the op at an address keeps the loop's bounds and exit guarantees |
| Scheduler.Raised | src/org/xvm/runtime/ServiceContext.java:346-398 | unwinding an exception to a guard or to the proto-frame's continuation keeps the loop's bounds and exit guarantees |
| Scheduler.SteppedOnce | src/org/xvm/runtime/ServiceContext.java:260-276 | within the budget, the op at the address runs and its answer (the next address for `R_NEXT`, else the answered code) decides what comes next |
| Scheduler.UnwindFaultKeepsCurrent | src/org/xvm/runtime/ServiceContext.java:346-392 | an unwind that reaches no guard, at a proto-frame whose continuation calls nothing, faults with the frame that was current when it began still current |
| Scheduler.ReturnExceptionKeepsCallee | src/org/xvm/runtime/ServiceContext.java:342-374 | after R_RETURN_EXCEPTION a caller holding no exception fails the assertion with the returning callee still current, and every other fault of an unguarded unwind leaves the callee current too |
| Scheduler.CorrectedFindsCallerGuard | src/org/xvm/runtime/ServiceContext.java:293-356 | corrected, the example callee's continuation raises on the caller, whose guard takes the exception, and the caller's op then yields |
| Scheduler.RaisedToGuard | src/org/xvm/runtime/ServiceContext.java:346-359 | an exception that a guard handles goes on at that guard's handler address in the guarding frame |
| Scheduler.Returned | src/org/xvm/runtime/ServiceContext.java:289-341 | the return path keeps the same bounds and exit guarantees as the loop |
| Scheduler.Resumed | src/org/xvm/runtime/ServiceContext.java:320-340 | after a return the loop goes on in a shorter caller chain with the same guarantees |
| Scheduler.Execution | src/org/xvm/runtime/ServiceContext.java:219-421 | `execute` (the source's loop as written, or with the caller-exception fix) processes at most ten ops, finishes exactly when the fiber terminates, leaves a fiber running only when it fails, and returns a still-waiting fiber at once |
| Scheduler.BudgetPauses | src/org/xvm/runtime/ServiceContext.java:260-268 | when every op just moves on, the fiber is paused after ten ops in all, at the first op it did not run |
| Scheduler.ContinuationRaisesOnCaller | src/org/xvm/runtime/ServiceContext.java:293-356 | corrected, a continuation that raises on the caller unwinds the caller's exception from the caller |
| Scheduler.AsWrittenFaultsWithoutOwnException | src/org/xvm/runtime/ServiceContext.java:293-356 | as written, when a continuation raises on the caller and the returning frame holds no exception of its own, `execute` fails |
| Scheduler.AsWrittenLosesCallerException | src/org/xvm/runtime/ServiceContext.java:293-356 | as written, a continuation that raises on the caller makes `execute` read the returning callee's exception, so a callee with none fails the assertion, where corrected the caller's guard handles it |
| Scheduler.Settled | src/org/xvm/runtime/ServiceContext.java:834-846 | a settled future keeps its state; a pending one fails exactly when the response carries an exception |
| Scheduler.FirstResponseWins | src/org/xvm/runtime/ServiceContext.java:834-846 | after a run of responses a future holds the answer of the first response for it, stays pending with none, and keeps a state once settled |
| Scheduler.RunResponse | src/org/xvm/runtime/ServiceContext.java:834-846 | running a response marks its fiber responded, settles its future once, and removes the service of a failed construction |
| Scheduler.EntryFrame | src/org/xvm/runtime/ServiceContext.java:437-451 | a message's proto-frame runs the entry op then RETURN_0 on its fiber from address 0, has one empty variable per return value and the request's continuation |
| Scheduler.Envelope | src/org/xvm/runtime/ServiceContext.java:566-582 | a message records the calling fiber and pc, or none and -1 from outside any frame |
| Scheduler.Take | src/org/xvm/runtime/ServiceContext.java:170-182 | taking a selected frame answers it and leaves the queue with exactly the other frames |
| Scheduler.Choose | src/org/xvm/runtime/ServiceContext.java:162-183 | Forbidden reentrancy is an assertion failure, Exclusive continues only an existing thread of execution, Prioritized prefers one and otherwise takes any ready fiber, Open takes any ready fiber; the chosen frame leaves the queue |
| Scheduler.ReturnStep | src/org/xvm/runtime/ServiceContext.java:289-341 | the return case, as written or corrected, either ends as that variant's loop specification says or goes on in a state that is later in the termination order |
| Scheduler.UnwindStep | src/org/xvm/runtime/ServiceContext.java:342-400 | the exception case either ends as the chosen variant's loop specification says or goes on in a later state |
| Scheduler.StepOnce | src/org/xvm/runtime/ServiceContext.java:258-420 | one turn of the loop either ends as the chosen variant's loop specification says or goes on in a later state within the budget |
| Scheduler.FrameStep | src/org/xvm/runtime/ServiceContext.java:280-345 | the R_CALL and R_RETURN_EXCEPTION cases either end as the loop specification says (a missing next frame or caller is a null dereference) or go on in a state later in the termination order |
| Scheduler.ContinuedStep | src/org/xvm/runtime/ServiceContext.java:299-322 | a continuation's R_EXCEPTION, R_CALL or invalid answer either ends as the variant's loop specification says or goes on in a later state with the same budget and status |
| Scheduler.PcStep | src/org/xvm/runtime/ServiceContext.java:260-276 | the op case either ends as the chosen variant's loop specification says (the eleventh op pauses the fiber; an address outside the code fails) or goes on past the processed op in a later state within the budget |
| Scheduler.SettleStep | src/org/xvm/runtime/ServiceContext.java:129-132 | running one response changes only the state of its own future |
| Scheduler.ServiceContext.constructor | src/org/xvm/runtime/ServiceContext.java:78-89 | a new service is prioritized, with empty queues and no current frame |
| Scheduler.ServiceContext.AddRequest | src/org/xvm/runtime/ServiceContext.java:112-115 | the message is queued last and the service is contended |
| Scheduler.ServiceContext.Respond | src/org/xvm/runtime/ServiceContext.java:117-120 | the response is queued last and contention is unchanged |
| Scheduler.ServiceContext.IsContended | src/org/xvm/runtime/ServiceContext.java:455-458 | a service with a current frame is contended, and an uncontended one has no message and no suspended fiber; responses do not count |
| Scheduler.ServiceContext.SuspendFiber | src/org/xvm/runtime/ServiceContext.java:186-216 | a running fiber is refused; a new one is queued; a waiting or yielded one stays current under Forbidden reentrancy and is otherwise queued; a paused one stays current |
| Scheduler.ServiceContext.DrainResponses | src/org/xvm/runtime/ServiceContext.java:127-132 | every queued response runs in order: each caller is marked responded, each future holds its first response, and the services of failed constructions are removed |
| Scheduler.ServiceContext.NextFiber | src/org/xvm/runtime/ServiceContext.java:123-184 | responses run, messages become proto-frames filed away in order, then the current frame is resumed if ready, nothing is picked from an empty queue, and otherwise the reentrancy policy picks a suspended frame |
| Scheduler.ServiceContext.DrainMessages | src/org/xvm/runtime/ServiceContext.java:135-143 | each queued message becomes a proto-frame on a new fiber and is queued, in order |
| Scheduler.ServiceContext.PickFrame | src/org/xvm/runtime/ServiceContext.java:148-183 | the current frame if its fiber is ready, nothing when no fiber is suspended, else the policy's choice |
| Scheduler.ServiceContext.SendConstructRequest | src/org/xvm/runtime/ServiceContext.java:461-476 | a construction is queued behind a new pending future whose failure removes this service |
| Scheduler.ServiceContext.SendInvoke1Request | src/org/xvm/runtime/ServiceContext.java:479-487 | a call with at most one return is queued, with a new future exactly when a value is wanted |
| Scheduler.ServiceContext.SendInvokeNRequest | src/org/xvm/runtime/ServiceContext.java:490-498 | a call with several returns is queued behind a new future |
| Scheduler.ServiceContext.SendProperty01Request | src/org/xvm/runtime/ServiceContext.java:501-509 | a property read is queued behind a new future |
| Scheduler.ServiceContext.SendProperty10Request | src/org/xvm/runtime/ServiceContext.java:512-516 | a property write is queued with no future |
| Scheduler.ServiceContext.CallLater | src/org/xvm/runtime/ServiceContext.java:518-522 | a call from outside, answering nothing, is queued and R_NEXT is answered |
| Scheduler.ServiceContext.Execute | src/org/xvm/runtime/ServiceContext.java:219-421 | the outcome is `Execution` of the frame for the chosen variant (as written: the source's loop), and the fiber takes its status; the current frame on exit is the suspended frame, none when the fiber finished, and after a fault the frame the source holds as current: the frame whose step failed, the frame whose exception is being unwound (after R_RETURN_EXCEPTION still the returning callee), or none when R_CALL found no next frame |
| Pool.GetConstant | src/org/xvm/asm/ConstantPool.java:60-63 | -1 gives no constant, a position in range gives the constant there, any other index is an index fault |
| Pool.LocatorsOfSound | src/org/xvm/asm/ConstantPool.java:1140-1182 | every locator entry names a constant whose own locator key is that entry's key |
| Pool.BuiltKeepsValid | src/org/xvm/asm/ConstantPool.java:1158-1182 | building the lookup maps keeps the invariant and finds a constant exactly when it is registered |
| Pool.InternKeepsValid | src/org/xvm/asm/ConstantPool.java:80-148 | appending a constant not yet registered keeps the invariant |
| Pool.Intern | src/org/xvm/asm/ConstantPool.java:114-124 | the constant is appended at the next position, entered in the lookup, and found under its locator |
| Pool.RegisterKeepsValid | src/org/xvm/asm/ConstantPool.java:80-148 | registration keeps the invariant: no constant twice, each at its recorded position, lookup maps holding exactly the registered constants |
| Pool.RegisterOutcome | src/org/xvm/asm/ConstantPool.java:80-148 | null and unresolved candidates give null and change nothing; otherwise the (resolved) constant, found again at its position, is appended at the old size when new and moves nothing; a new constant from another pool is refused |
| Pool.Registered | src/org/xvm/asm/ConstantPool.java:80-148 | null and unresolved candidates give null and change nothing; a constant answered is the (resolved) candidate and is in the pool's lookup; the only fault refuses a constant from another pool and leaves the list |
| Pool.RegisterExisting | src/org/xvm/asm/ConstantPool.java:80-148 | registering a constant already in a built pool only counts the reference |
| Pool.RegisteredIn | src/org/xvm/asm/ConstantPool.java:80-148 | a constant registered without failure is in the list of a built pool |
| Pool.RegisterIdempotent | src/org/xvm/asm/ConstantPool.java:80-148 | registering the same constant again gives it back and moves no constant |
| Pool.EnsureNotNegates | src/org/xvm/asm/ConstantPool.java:370-384 | the negation of a negation is the condition itself, otherwise the negation of the condition, and negating twice gives the condition back |
| Pool.EnsureNot | src/org/xvm/asm/ConstantPool.java:370-384 | the negation of a negation is the condition; otherwise the answer is a new negation or one already registered under its locator |
| Pool.EnsureCombinedOutcome | src/org/xvm/asm/ConstantPool.java:394-421 | fewer than two conditions are refused without touching the pool; otherwise the result is the any- or all-combination of exactly those conditions |
| Pool.EnsureModuleIsModule | src/org/xvm/asm/ConstantPool.java:430-443 | a valid module name gives the module of that name |
| Pool.EnsurePackageIsPackage | src/org/xvm/asm/ConstantPool.java:454-477 | a package under a module or package with a valid name is the package of that name and the pool stays valid |
| Pool.EnsureClassIsClass | src/org/xvm/asm/ConstantPool.java:488-501 | a class under a module, package, class or method is the class of that name and the pool stays valid |
| Pool.ResetRefsCounts | src/org/xvm/asm/ConstantPool.java:1041-1050 | after the reset every registered constant has no references and every other count is as it was |
| Pool.Kept | src/org/xvm/asm/ConstantPool.java:1073-1101 | the kept constants are exactly the referenced ones of the list |
| Pool.MarkAt | src/org/xvm/asm/ConstantPool.java:1073-1101 | in a list without repeats a constant's recorded position is its index, or -1 when it is unreferenced |
| Pool.KeptPrefix | src/org/xvm/asm/ConstantPool.java:1073-1101 | with referenced constants first, the kept constants are a prefix of the sorted list |
| Pool.OptimizeOutcome | src/org/xvm/asm/ConstantPool.java:1073-1101 | optimizing a most-frequently-used ordering keeps the invariant, keeps exactly the referenced constants, each at its recorded position, and records -1 for each dropped one |
| Pool.IndexOf | src/org/xvm/asm/ConstantPool.java:515-524 | the first index of the character at or after the start, or -1 when there is none |
| Pool.SegmentOutcome | src/org/xvm/asm/ConstantPool.java:511-526 | a segment yields a class or a package under its parent and keeps the pool valid |
| Pool.EcstasyFromOutcome | src/org/xvm/asm/ConstantPool.java:511-526 | walking the dotted name yields the class named by the last segment and keeps the pool valid; a failure is an illegal name or an empty segment |
| Pool.EcstasyTopLevel | src/org/xvm/asm/ConstantPool.java:511-526 | a name without a dot is a class directly inside the core module |
| Pool.EcstasyTwoSegments | src/org/xvm/asm/ConstantPool.java:511-526 | a name with one dot is the segment before it, then the class after it under that segment |
| Pool.EcstasyPackageSegment | src/org/xvm/asm/ConstantPool.java:511-526 | `collections.Tuple` is the class Tuple of the package collections of the core module |
| Pool.EcstasyClassSegment | src/org/xvm/asm/ConstantPool.java:511-526 | `Map.Entry` is the class Entry nested in the class Map of the core module |
| Pool.ImplicitTable | src/org/xvm/asm/ConstantPool.java:537-601 | the implicit-import table maps the names of the core types to their package, class and nested class, and knows no other names |
| Pool.ImplicitImports | src/org/xvm/asm/ConstantPool.java:537-601 | `Int`, `String`, `null`, `true`, `false`, `Tuple` and `X` name their core-module constants, and an unknown name gives null and leaves the pool untouched |
| Pool.ConstantPool.constructor | src/org/xvm/asm/ConstantPool.java:44-47 | a new pool holds no constants, has no lookup maps and is not registering in bulk; it is valid |
| Pool.ConstantPool.EnsureLookup | src/org/xvm/asm/ConstantPool.java:1158-1182 | the pool afterwards is the built pool of the old one |
| Pool.ConstantPool.Register | src/org/xvm/asm/ConstantPool.java:80-148 | the answer and the new pool are those of `Registered` on the old pool |
| Pool.ConstantPool.PreRegisterAll | src/org/xvm/asm/ConstantPool.java:1041-1050 | the answer and the new pool are those of `PreRegistered`: refused while a bulk registration is under way, otherwise all counts zeroed |
| Pool.ConstantPool.Optimize | src/org/xvm/asm/ConstantPool.java:1073-1101 | the new pool is `Optimized` of the old one |
| Pool.ConstantPool.PostRegisterAll | src/org/xvm/asm/ConstantPool.java:1058-1067 | the answer and the new pool are those of `PostRegistered`: refused with no bulk registration under way, otherwise it ends, optimizing on request |
| Pool.ConstantPool.EnsureModule | src/org/xvm/asm/ConstantPool.java:430-443 | the answer and the new pool are those of `ModuleConst` |
| Pool.ConstantPool.EnsurePackage | src/org/xvm/asm/ConstantPool.java:454-477 | the answer and the new pool are those of `PackageConst` |
| Pool.ConstantPool.EnsureClass | src/org/xvm/asm/ConstantPool.java:488-501 | the answer and the new pool are those of `ClassConst` |
| Pool.ConstantPool.EnsureCombined | src/org/xvm/asm/ConstantPool.java:394-421 | the answer and the new pool are those of `CombinedConst` |
| Pool.ConstantPool.EnsureEcstasyClass | src/org/xvm/asm/ConstantPool.java:511-526 | the answer and the new pool are those of `EcstasyClassConst` |
| Pool.ConstantPool.WalkOne | src/org/xvm/asm/ConstantPool.java:517-523 | one pass of the segment loop either ends the walk with exactly the outcome and pool `EcstasyFrom` gives, or leaves a pool from which the rest of the name walks to the same result |
| Pool.ConstantPool.WalkSegments | src/org/xvm/asm/ConstantPool.java:515-525 | the segment loop gives what `EcstasyFrom` gives from the core module |
| Pool.ConstantPool.EnsureSegment | src/org/xvm/asm/ConstantPool.java:518-521 | the answer and the new pool are those of `Segment`: a class under a class or for a name starting at or below `Z`, an index fault for an empty name under anything else, a package otherwise |
| Pool.ConstantPool.EnsureImplicitlyImported | src/org/xvm/asm/ConstantPool.java:537-601 | the answer and the new pool are those of `ImplicitConst` |
| Methods.LeadingTypeParams | src/org/xvm/asm/MethodStructure.java:82-94 | the type-parameter count is the length of the longest run of type parameters at the head of the parameters |
| Methods.GetAnnotation | src/org/xvm/asm/MethodStructure.java:112-127 | the i-th annotation for an index below the count (zero without an annotation array), nothing otherwise |
| Methods.FirstOfClass | src/org/xvm/asm/MethodStructure.java:145-156 | the first annotation of the class, or none exactly when no annotation has that class |
| Methods.KeptAnnotations | src/org/xvm/asm/MethodStructure.java:162-216 | the annotations that stay are exactly those applying into the method |
| Methods.MovedAnnotations | src/org/xvm/asm/MethodStructure.java:162-216 | the annotations that move are exactly those not applying into the method |
| Methods.AnnotationsPartitioned | src/org/xvm/asm/MethodStructure.java:162-216 | every annotation goes to exactly one side: together the two sides are the annotations, none lost or made up |
| Methods.WrapOutermost | src/org/xvm/asm/MethodStructure.java:222-245 | the first annotation ends up outermost around the rest |
| Methods.WrapAppend | src/org/xvm/asm/MethodStructure.java:222-245 | wrapping by a concatenation is wrapping by the second part first, then by the first part outside it |
| Methods.ReturnsAnnotated | src/org/xvm/asm/MethodStructure.java:222-245 | no returns is an assertion failure and a lone conditional return an index fault; otherwise return 0, or return 1 after a conditional return 0, gets its type wrapped by the annotations, keeps its name, is no longer conditional, and every other return is unchanged |
| Methods.ResolveOutcome | src/org/xvm/asm/MethodStructure.java:162-216 | no returns or an unresolved annotation change nothing; otherwise the annotations into the method stay in order, and the returns become those `ReturnsAnnotated` gives for the annotations that move |
| Methods.Resolve | src/org/xvm/asm/MethodStructure.java:162-216 | without returns nothing changes; with returns but no annotations it is a null dereference; an unresolved annotation defers and changes nothing; the returns keep their number; faults are null, index and state faults |
| Methods.KeptAllWhenNoneMoved | src/org/xvm/asm/MethodStructure.java:182-185 | when nothing moves, every annotation stays |
| Methods.MovedAllWhenNoneKept | src/org/xvm/asm/MethodStructure.java:187-194 | when nothing stays, every annotation moves |
| Methods.WithoutVoidReturn | src/org/xvm/asm/MethodStructure.java:1016-1020 | the returns become empty exactly when they were empty or a single Void, and are otherwise unchanged |
| Methods.WithoutVoidIdempotent | src/org/xvm/asm/MethodStructure.java:1016-1020 | dropping a Void return twice is dropping it once |
| Methods.SubstitutableReflexive | src/org/xvm/asm/MethodStructure.java:777-837 | under a reflexive type relation every signature can stand in for itself |
| Methods.SubstitutableTransitive | src/org/xvm/asm/MethodStructure.java:777-837 | under a transitive type relation substitution composes |
| Methods.MethodStructure.constructor | src/org/xvm/asm/MethodStructure.java:67-96 | a method is conditional exactly when its first return is, and its type parameters are the leading run of its parameters |
| Methods.MethodStructure.FindAnnotation | src/org/xvm/asm/MethodStructure.java:145-156 | the first annotation of the class; without an annotation array the search is a null dereference |
| Methods.MethodStructure.IsSubstitutableFor | src/org/xvm/asm/MethodStructure.java:777-837 | names that differ are an assertion failure; otherwise the answer holds exactly when the counts agree, each of the other's returns is one of this method's and each of this method's parameters is one of the other's |
| Methods.MethodStructure.SetAbstract | src/org/xvm/asm/MethodStructure.java:522-532 | marking abstract drops the code, the bytes and the native flag; unmarking changes only the flag; a method is never both abstract and native afterwards |
| Methods.MethodStructure.SetNative | src/org/xvm/asm/MethodStructure.java:548-556 | marking native clears the abstract flag; nothing else changes, and never being both abstract and native is preserved |
| Methods.MethodStructure.EnsureCode | src/org/xvm/asm/MethodStructure.java:366-379 | no code for an abstract or native method; otherwise the existing code, or new empty code of this method that is kept; nothing but the code field changes |
| Methods.MethodStructure.ResolveAnnotations | src/org/xvm/asm/MethodStructure.java:162-216 | the outcome and the new annotations and returns are those `Resolve` gives; nothing else changes, and a fault leaves annotations and returns as they were |
| Methods.MethodStructure.AddReturnAnnotations | src/org/xvm/asm/MethodStructure.java:222-245 | the new returns, or the failure, are those `ReturnsAnnotated` gives |
| Methods.RolesExclusive | src/org/xvm/asm/MethodStructure.java:582-649 | no method is two of getter, setter and initializer |
| Methods.MethodStructure.IsPotentialInitializer | src/org/xvm/asm/MethodStructure.java:582-587 | a potential initializer is a function (static) with one return and no parameters |
| Methods.MethodStructure.IsPotentialGetter | src/org/xvm/asm/MethodStructure.java:612-618 | a potential getter is an instance method and is not named as a setter or an initializer, so it can play no other role |
| Methods.MethodStructure.IsPotentialSetter | src/org/xvm/asm/MethodStructure.java:643-649 | a potential setter is an instance method not named as a getter or an initializer, so it can play no other role |
| Methods.MethodStructure.IsAccessible | src/org/xvm/asm/MethodStructure.java:708-711 | a public method is accessible under every policy, every method under the struct policy, and under the public policy exactly the public ones |
| Methods.AccessMonotone | src/org/xvm/asm/MethodStructure.java:708-711 | accessibility grows with the policy: a public method is always accessible, a struct policy admits every method, and the public policy admits only public methods |
| Methods.CountMoved | src/org/xvm/asm/MethodStructure.java:169-181 | the first loop gives nothing exactly when an annotation is unresolved, and otherwise how many annotations move |
| Methods.SplitAnnotations | src/org/xvm/asm/MethodStructure.java:196-211 | the second loop splits the annotations into those that stay and those that move, each in order |
| Methods.FlattenMember | src/org/xvm/asm/MethodStructure.java:1254-1288 | an op is among the code's ops exactly when some entry holds it |
| Methods.Ensured | src/org/xvm/asm/MethodStructure.java:1416-1427 | code read from bytes cannot be appended to; otherwise the op list exists afterwards, unchanged if it was there |
| Methods.AppendedShape | src/org/xvm/asm/MethodStructure.java:1213-1222 | appending keeps the entries prefix chains and adds the op at the end of all ops |
| Methods.AddedOutcome | src/org/xvm/asm/MethodStructure.java:1200-1226 | apart from code read from bytes, adding never fails; the ops gain the line Nop (when the line changed) and then the op, the line is caught up, the trailing flag says whether the op is a prefix, and the cached index is dropped |
| Methods.AddedJoinsPrefix | src/org/xvm/asm/MethodStructure.java:1213-1217 | an op added after a trailing prefix on the same line joins that prefix's entry |
| Methods.AddedAfterPrefixOnNewLine | src/org/xvm/asm/MethodStructure.java:1204-1222 | after a trailing prefix on a new line, the line Nop joins the prefix's entry and the op starts an entry of its own |
| Methods.AddedKeepsDisjoint | src/org/xvm/asm/MethodStructure.java:1200-1226 | adding ops not yet in the code keeps every op in a single entry |
| Methods.AppendedDisjoint | src/org/xvm/asm/MethodStructure.java:1213-1222 | appending an op not yet in the code keeps every op in a single entry |
| Methods.FirstIndex | src/org/xvm/asm/MethodStructure.java:1259-1271 | the linear search gives the first entry holding the op, or -1 when none does |
| Methods.PutChainAt | src/org/xvm/asm/MethodStructure.java:1274-1283 | putting a chain maps each of its ops to the chain's address and keeps every other entry |
| Methods.BuildIndexAgrees | src/org/xvm/asm/MethodStructure.java:1254-1288 | with every op in one entry, the index maps exactly the ops present, each to the entry the linear search finds |
| Methods.AddressAgrees | src/org/xvm/asm/MethodStructure.java:1254-1288 | the cached index, the linear search and a newly built index all give the entry holding the op, or -1 exactly when the op is absent, and the cache stays coherent |
| Methods.Code.constructor | src/org/xvm/asm/MethodStructure.java:1139-1161 | new code holds no ops, is on line zero, and is well shaped and coherent |
| Methods.Code.UpdateLineNumber | src/org/xvm/asm/MethodStructure.java:1188-1191 | only the current line changes |
| Methods.Code.EnsureAppending | src/org/xvm/asm/MethodStructure.java:1416-1427 | the outcome and the new state are those of `Ensured` |
| Methods.Code.AppendOp | src/org/xvm/asm/MethodStructure.java:1213-1222 | the outcome and the new state are those of `Appended` |
| Methods.Code.Add | src/org/xvm/asm/MethodStructure.java:1200-1226 | the outcome and the new state are those of `Added`, with a new Nop for the line delta when the line changed |
| Methods.Code.AddressOf | src/org/xvm/asm/MethodStructure.java:1254-1288 | the answer and the new state are those of `Address` |
| Methods.BuildEntries | src/org/xvm/asm/MethodStructure.java:1274-1283 | the index loop builds exactly `BuildIndex` of the entries |
| TypeInfos.Keys | src/org/xvm/asm/constants/TypeInfo.java:101-122 | the identities of a chain, one per entry, in order |
| TypeInfos.Find | src/org/xvm/asm/constants/TypeInfo.java:101-122 | nothing exactly when no entry has the identity; otherwise a value some entry stores for it |
| TypeInfos.FindDistinct | src/org/xvm/asm/constants/TypeInfo.java:101-122 | in a chain of distinct identities, the lookup of an entry's identity gives that entry's value |
| TypeInfos.Without | src/org/xvm/asm/constants/TypeInfo.java:107-113 | removing an identity leaves exactly the entries with other identities, and never lengthens the chain |
| TypeInfos.WithoutDistinct | src/org/xvm/asm/constants/TypeInfo.java:107-113 | removing an identity keeps the identities distinct |
| TypeInfos.FindSnoc | src/org/xvm/asm/constants/TypeInfo.java:101-122 | appending an entry does not change what is stored for another identity |
| TypeInfos.FindWithout | src/org/xvm/asm/constants/TypeInfo.java:107-113 | removing one identity does not change what is stored for another |
| TypeInfos.ContributeOneOthers | src/org/xvm/asm/constants/TypeInfo.java:103-115 | contributing one entry leaves every other identity's value as it was |
| TypeInfos.ContributeOneOutcome | src/org/xvm/asm/constants/TypeInfo.java:103-115 | the identities stay distinct and the other entries are unchanged; an entry already anchored leaves the chain as it is; otherwise the entry ends up last, anchored exactly when it is an annotation that is yanked |
| TypeInfos.WithoutSnoc | src/org/xvm/asm/constants/TypeInfo.java:107-113 | removal distributes over appending one entry |
| TypeInfos.WithoutAbsent | src/org/xvm/asm/constants/TypeInfo.java:107-113 | removing an absent identity changes nothing |
| TypeInfos.WithoutTwice | src/org/xvm/asm/constants/TypeInfo.java:107-113 | removal is idempotent |
| TypeInfos.FindDistinctSnoc | src/org/xvm/asm/constants/TypeInfo.java:101-106 | appending an absent identity keeps identities distinct and stores the appended value |
| TypeInfos.ClassMergedOutcome | src/org/xvm/asm/constants/TypeInfo.java:101-116 | after contributing a whole chain the identities stay distinct, every contributed identity is present, and every other identity keeps its value |
| TypeInfos.DefaultMergedOutcome | src/org/xvm/asm/constants/TypeInfo.java:118-122 | after adding the default chain the identities stay distinct, each added identity is present, and nothing already present changes |
| TypeInfos.PutIfAbsentOutcome | src/org/xvm/asm/constants/TypeInfo.java:121 | existing entries keep their values and positions; an anchored entry is appended exactly when the identity was absent |
| TypeInfos.PutIfAbsentKeeps | src/org/xvm/asm/constants/TypeInfo.java:121 | a present identity stays present |
| TypeInfos.ListMap.constructor | src/org/xvm/asm/constants/TypeInfo.java:101-122 | a new map is empty |
| TypeInfos.AutoOrder | src/org/xvm/asm/constants/TypeInfo.java:287-308 | the auto-conversion methods in visiting order are exactly those annotated "@Auto" |
| TypeInfos.FoundOpsSound | src/org/xvm/asm/constants/TypeInfo.java:252-280 | with the cache keyed by the whole query, the answer is always the set of matching op methods, and the new cache holds that answer for that query |
| TypeInfos.OpKeyCollides | src/org/xvm/asm/constants/TypeInfo.java:252-280 | the string key of ("a", "+", 11) equals that of ("a", "+1", 1), so a cached answer for the first is returned for the second |
| TypeInfos.ConvScanSound | src/org/xvm/asm/constants/TypeInfo.java:321-374 | the scan stops at a conversion to exactly the desired type, or ends with a best match whose type is a subtype of the desired type; with no candidate it ends with none |
| TypeInfos.ConvScan | src/org/xvm/asm/constants/TypeInfo.java:331-366 | an exact match is one of the conversions with the desired type; a best match is the starting one or a conversion to a subtype of the desired type |
| TypeInfos.ConvScanMostSpecific | src/org/xvm/asm/constants/TypeInfo.java:331-366 | with a transitive `isA`, a best match the scan ends with is at least as specific as the starting match and as every conversion to a subtype of the desired type |
| TypeInfos.ConvScanAmbiguous | src/org/xvm/asm/constants/TypeInfo.java:331-366 | when the scan ends with none although there was a candidate, two candidates met are incomparable (each a subtype of the other or neither) |
| TypeInfos.Conversion | src/org/xvm/asm/constants/TypeInfo.java:321-374 | a cache for the desired type answers without change; otherwise the cache is unchanged or records the desired type with the answer |
| TypeInfos.ConversionMostSpecific | src/org/xvm/asm/constants/TypeInfo.java:321-374 | with a transitive `isA`, from an empty cache the answer is a conversion to exactly the desired type or to the most specific subtype of it; no answer despite a candidate means two incomparable candidates; corrected, no answer means no exact conversion |
| TypeInfos.FirstExact | src/org/xvm/asm/constants/TypeInfo.java:321-374 | the first conversion to exactly the desired type; nothing exactly when there is none |
| TypeInfos.ConversionCached | src/org/xvm/asm/constants/TypeInfo.java:321-374 | from a coherent cache, the answer is the one computed afresh and the cache stays coherent |
| TypeInfos.CorrectedPrefersExact | src/org/xvm/asm/constants/TypeInfo.java:321-374 | when some conversion returns exactly the desired type, the corrected search returns such a conversion |
| TypeInfos.ConversionSound | src/org/xvm/asm/constants/TypeInfo.java:321-374 | every answer of the corrected search names an "@Auto" method whose type is the desired type or a subtype of it |
| TypeInfos.ExactHiddenByAmbiguity | src/org/xvm/asm/constants/TypeInfo.java:321-374 | as written, two incomparable subtypes seen before an exact match make the search return nothing |
| TypeInfos.TypeResolver.constructor | src/org/xvm/asm/constants/TypeInfo.java:70-80 | a resolver holds the type's parameters and reports to the given error list |
| TypeInfos.TypeInfo.constructor | src/org/xvm/asm/constants/TypeInfo.java:70-80 | a new type info holds its parameters, chains and methods, with every cache empty and coherent |
| TypeInfos.TypeInfo.EnsureTypeResolver | src/org/xvm/asm/constants/TypeInfo.java:70-80 | the cached resolver is returned when it reports to the same error list; otherwise a fresh one is created and cached |
| TypeInfos.TypeInfo.ContributeChains | src/org/xvm/asm/constants/TypeInfo.java:101-122 | the class map becomes the merge of the type's class chain and the default map the merge of its default chain, also when both are one map |
| TypeInfos.TypeInfo.GetOpMethodInfos | src/org/xvm/asm/constants/TypeInfo.java:198-217 | the cached set when present, otherwise the methods annotated "@Op", which are then cached, and `Valid` is kept |
| TypeInfos.TypeInfo.GetAutoMethodInfos | src/org/xvm/asm/constants/TypeInfo.java:287-308 | the cached set when present, otherwise the methods annotated "@Auto", which are then cached, and `Valid` is kept |
| TypeInfos.TypeInfo.FindOpMethods | src/org/xvm/asm/constants/TypeInfo.java:252-280 | the answer and the new cache are those of the query-keyed lookup, so the answer is the set of matching op methods, and `Valid` is kept |
| TypeInfos.TypeInfo.FindConversion | src/org/xvm/asm/constants/TypeInfo.java:321-374 | the answer and the new cache are those of the corrected conversion search over the "@Auto" methods (which `ConversionMostSpecific` shows to be exact, or most specific, or ambiguous), and `Valid` is kept |
| TypeInfos.OpInfosSeq | src/org/xvm/asm/constants/TypeInfo.java:198-217 | the op methods in visiting order are exactly the given set |
| TypeInfos.ScanConversions | src/org/xvm/asm/constants/TypeInfo.java:332-366 | the loop ends as the specification of the scan does |
| Classes.IsSingleton | src/org/xvm/asm/ClassStructure.java:53-84 | modules, packages and enum values are singletons; interfaces, classes, enums, mixins and traits are not; a const or service is one exactly when static and directly inside a module or package; any other format fails |
| Classes.FirstExtends | src/org/xvm/asm/ClassStructure.java:267-283 | the target of some Extends contribution, or nothing exactly when there is none |
| Classes.Walk | src/org/xvm/asm/ClassStructure.java:264-286 | the walk up the Extends chain answers true exactly when the target is among the supers |
| Classes.ExtendsClass | src/org/xvm/asm/ClassStructure.java:244-286 | a class extends Object, and, unless it is an interface, itself and exactly its supers; an interface extends nothing but Object |
| Classes.ExtendsRanked | src/org/xvm/asm/ClassStructure.java:264-286 | the class a class extends lies lower in an acyclic hierarchy, so the walk ends |
| Classes.WalkAgrees | src/org/xvm/asm/ClassStructure.java:264-286 | the walk finds the target exactly when it is among the supers, and fails exactly when the chain of supers reaches a missing class |
| Classes.NoExtendsExtendsNothing | src/org/xvm/asm/ClassStructure.java:244-286 | a class without an Extends contribution extends exactly Object and, unless an interface, itself |
| Classes.WalkThroughSuper | src/org/xvm/asm/ClassStructure.java:264-286 | what the super extends, the class extends too |
| Classes.FindInSound | src/org/xvm/asm/ClassStructure.java:340-397 | every contribution a search from the i-th contribution finds is defined by the constant sought and belongs to the class itself or to a class reached through one of its inheriting contributions from the i-th on |
| Classes.FindContributionSound | src/org/xvm/asm/ClassStructure.java:340-397 | a contribution found for a constant other than Object and the class itself is defined by that constant and is a contribution of a class in the hierarchy (`Hierarchy`) |
| Classes.FindFirstDirect | src/org/xvm/asm/ClassStructure.java:340-397 | a first contribution defined by the constant is the answer |
| Classes.FindInBareClass | src/org/xvm/asm/ClassStructure.java:340-397 | a class without contributions finds only Object and itself |
| Classes.FindContribution | src/org/xvm/asm/ClassStructure.java:340-397 | Object is found as Object's contribution, the class itself as Equal, and any other contribution found is defined by the constant sought |
| Classes.FindIn | src/org/xvm/asm/ClassStructure.java:357-395 | a contribution found is defined by the constant sought; a failure is a missing class or an unexpected composition |
| Classes.FindInComplete | src/org/xvm/asm/ClassStructure.java:357-395 | a search from contribution i that finds nothing has met no contribution defined by the constant there or later, and no class reached through an inheriting one is the constant or has such a contribution |
| Classes.FindInRest | src/org/xvm/asm/ClassStructure.java:357-395 | in a search that finds nothing, contribution i is skipped or inherits from a class where nothing is found, and the rest finds nothing |
| Classes.FindContributionComplete | src/org/xvm/asm/ClassStructure.java:340-397 | null is answered only when the constant is not Object, and no class of the hierarchy is the constant or has a contribution defined by it |
| Classes.FindFirstMatch | src/org/xvm/asm/ClassStructure.java:357-395 | when every earlier contribution is skipped or leads to a search that finds nothing, the first contribution defined by the constant is the answer |
| Classes.IndexOfName | src/org/xvm/asm/ClassStructure.java:127-137 | a position holding the name, or -1 exactly when no parameter has that name |
| Classes.Put | src/org/xvm/asm/ClassStructure.java:127-137 | after a put the entry is present, the list grows exactly when the name is new, and every entry of another name keeps its place |
| Classes.AsMapDomain | src/org/xvm/asm/ClassStructure.java:127-137 | a name is in the parameter map exactly when it is in the list |
| Classes.PutOutcome | src/org/xvm/asm/ClassStructure.java:127-137 | after a put the name maps to the type, every other name keeps its type and place, names stay distinct, and the list grows exactly when the name is new |
| Classes.AsMapUpdate | src/org/xvm/asm/ClassStructure.java:127-137 | replacing the type at a name that occurs once updates the map at that name only |
| Classes.ParamsEqualProperties | src/org/xvm/asm/ClassStructure.java:476-502 | a missing parameter map equals an empty one, and the equality is reflexive, symmetric and transitive |
| Classes.ParamsEqualIgnoresOrder | src/org/xvm/asm/ClassStructure.java:476-502 | the same parameters in either order are equal |
| Classes.ClassEquals | src/org/xvm/asm/ClassStructure.java:476-502 | equal structures have equal components and are both with or both without type parameters; with equal components, no parameters on either side is equality |
| Classes.ClassStructure.constructor | src/org/xvm/asm/ClassStructure.java:41-45 | a new structure has no type parameters and is not modified |
| Classes.ClassStructure.AddTypeParam | src/org/xvm/asm/ClassStructure.java:127-137 | the map is created when missing, the entry is put, and the structure is marked modified |
| Classes.ClassStructure.ExtendsClassOf | src/org/xvm/asm/ClassStructure.java:244-286 | the loop's answer is exactly the specification of extending |
| Classes.FirstExtendsOf | src/org/xvm/asm/ClassStructure.java:267-283 | the inner loop finds the first Extends contribution |
| Properties.NewBody | src/org/xvm/asm/constants/PropertyBody.java:38-73 | the body is built exactly when the structure and type are present, the kind is permitted, a delegatee is given exactly when delegating, not both an initial value and an initializer are given, and a constant has one of them; the built body is well formed and carries the arguments |
| Properties.TypeParamBody | src/org/xvm/asm/constants/PropertyBody.java:82-102 | the body is built exactly when both parts are present and the parameter has the property's name |
| Properties.TypeParamBodyOutcome | src/org/xvm/asm/constants/PropertyBody.java:82-102 | a type-parameter body is well formed, native, read-only, has no code, field, constant or initializer, is typed by the constraint, and is not abstract |
| Properties.AbstractByKind | src/org/xvm/asm/constants/PropertyBody.java:301-315 | delegating and native bodies are never abstract, implicit and declared ones always are, and an explicit one exactly when annotated "Abstract" |
| Properties.EqualsIgnoresKind | src/org/xvm/asm/constants/PropertyBody.java:358-382 | two bodies are equal exactly when they differ at most in kind and delegatee |
| Properties.EqualsEquivalence | src/org/xvm/asm/constants/PropertyBody.java:358-382 | body equality is reflexive, symmetric and transitive |
| Properties.HashConsistent | src/org/xvm/asm/constants/PropertyBody.java:353-382 | equal bodies have equal hash codes |
| Properties.IsTypeParam | src/org/xvm/asm/constants/PropertyBody.java:176-179 | a body is for a type parameter exactly when it carries the parameter's information |
| Properties.IsAbstract | src/org/xvm/asm/constants/PropertyBody.java:301-315 | delegating and native bodies are not abstract; implicit and declared ones are |
| Properties.Equals | src/org/xvm/asm/constants/PropertyBody.java:359-382 | two bodies are equal exactly when they differ at most in kind and delegatee, and then they are of the same property |
| Properties.HashCode | src/org/xvm/asm/constants/PropertyBody.java:353-357 | the hash code is the property identity that every equal body shares |
| Properties.KindsNotCompared | src/org/xvm/asm/constants/PropertyBody.java:358-382 | a delegating and a native body built from the same parts are equal though they differ |

## Left out

- **Concurrency.** Thread safety of the concurrent queues and maps, thread-local context binding, and the asynchrony of `CompletableFuture`. The queues are sequences, and a future is a cell that is written once. The `whenComplete` callbacks are left out: the model settles a future when its response runs.
- **Classes that are not shown.** `Frame`, `Fiber`, `FiberQueue`, `Op`, `TypeConstant`, the templates and `Utils.GetArguments` are not part of this model. A frame is a value with links to its caller, not a shared object, so aliasing between frames is not captured.
  - What these classes do enters the model as function-typed parameters: an op's `process`, continuations, `findGuard`, `checkWaitingRegisters`, fiber readiness, the choice made by the fiber queue, `isA`, `matches`, `MethodInfo.isOp`, template outcomes and `Component.equals`.
  - The model proves what the core does for every such parameter, not for the particular implementation.
- **Java assertions.** These are checks on the program, not error paths, but the model treats a failing `assert` as the fault `IllegalState` so that the case is not lost.
- **Byte encodings.** The packed-int encoding and the stream helpers are left out. Ops are written to and read from sequences of ints, so only the field order is modelled. `disassemble`/`assemble` of methods and pools, and `Op.readOps`, are left out.
- **Control codes.** `R_NEXT`, `R_CALL`, `R_RETURN` and the rest are datatype constructors rather than fixed negative ints. A non-negative code is a jump address.
- **Unfinished code.** `ClassStructure.getOpMethods` and `getMethods` do not compile. `TypeInfo.findMethod`, `impersonatesClass` and `extendsOrImpersonatesClass` are stubs. `FunctionProxyHandle.callT` throws UnsupportedOperationException on its remaining cross-context path (from the same context it delegates to the superclass, and a failed immutability check raises `mutableObject`). `callUnhandledExceptionHandler` only logs, so in the model it collects the exceptions it is handed.
- **Thin delegations to templates that are not shown.** `xListMap.createConstHandle`, `xType`, `xRTFunction.ensureClass`/`createConstHandle`, and the ops that only forward to them.
- **Formatting and bookkeeping.** `toString`, `getDescription`, `dump`, run-time metrics, the static `INSTANCE` registries, and `Constant.registerConstants`. The model keeps only the rendering rule for tuples and the Void-return drop of `registerConstants`.
- **Trivial accessors.** Type-info accessors, `getTypeParams`, `getTypeParamsAsList`, `getReturn`, `getParam`, `lastRegister`, `usesSuper`, `hasOps`, `createCode`, `setOps`, `blackhole`, `onlyIf`, `calcVars` and `ensureAssembled`. They read or set one field and promise nothing beyond that.
- **Method predicates that take a resolver.** `isInitializer`, `isGetter` and `isSetter` with a resolver, and `producesFormalType`/`consumesFormalType`, are left out. The resolver-free `isPotential...` forms are modelled.
- Methods.MethodStructure.IsSubstitutableFor: the type resolver it receives is not modelled; types are compared by the `isA` parameter.
- Methods.Code.Add: the line-number delta is an unbounded int; the Java cast of the delta to `int` is not modelled.
- Methods.MethodStructure.SetNative: the call to `resetRuntimeInfo` has no field in the model, so its effect is not stated.
- Methods.Code.AddressOf: a prefix chain is a sequence of ops in one entry. The chaining of `Prefix.append`, `contains` and `getNextOp` is taken as what those names say.
- TypeInfos.TypeInfo.ContributeChains: the chains are ordered lists with the `ListMap` semantics of get, put, remove and putIfAbsent. The case of a map being its own source while it is iterated is not modelled.
- TypeInfos.TypeInfo.GetOpMethodInfos: a `HashSet` has no defined order. The model visits the methods in the order of the method list.
- TypeInfos.TypeInfo.FindConversion: it is proved for the corrected search. The as-written search is `Conversion` with `AsWritten` (see Findings).
- TypeInfos.TypeInfo.FindOpMethods: it is proved for the cache keyed by the whole query. The as-written string key is `FoundOpsAsWritten` (see Findings).
- Pool.ConstantPool.Optimize: the sort by most-frequent use relies on a comparator that is not shown. The model takes any permutation of the list that puts referenced constants first.
- Pool.ConstantPool.Register: `ResolvableConstant` is reduced to its resolution (present or not). The lookup maps of the different formats are merged into one map keyed by format and locator.
- Methods.AccessMonotone: access levels are compared by their declaration order, as the source compares ordinals.
- Functions.InvokeInvoke: the type check of a supplied argument is the `accepts` parameter, and whether the method is known is the `methodKnown` flag.
- Enums.EnumTemplate.GetEnumByOrdinal: the cast of a 64-bit ordinal to `int` is not modelled; the ordinal is an unbounded int.
- Binding.InvokeBind: the cast of each 64-bit ordinal to `int` is not modelled; ordinals are unbounded ints.
- Binding.Bind: the resolver made for a type parameter is not modelled, nor the cast of its argument to a type handle (the model has no type handles); whether the method is known is the `methodKnown` flag.
- Tuples.RenderTuple: a `toString` that needs a call (`R_CALL`) is a text delivered later. The re-entered state machine of `ToString` is not modelled step by step.
- Tuples.TupleHandle.ElementType: the element-type array is an optional sequence of type identities.
- Enums.EnumTemplate.InitDeclared: setting the singleton handle on each value's class is not modelled.
- Scheduler.ServiceContext.Execute: frames, the budget and the fiber status are explicit state. The thread-local current service and `m_frameCurrent` across threads are not modelled. Frames are values, so the pc the source writes into the calling frame before R_CALL fails is not seen after the fault.
- Classes.Walk, Classes.ExtendsClass, Classes.FindContribution: only acyclic hierarchies are modelled. These members require a ranking (`Ranked`) under which every inheriting contribution leads lower. On a cyclic Extends chain the source's walk loops forever (src/org/xvm/asm/ClassStructure.java:264-286). On a cycle of inheriting contributions `findContribution` recurses until the stack overflows (src/org/xvm/asm/ClassStructure.java:340-397). Neither outcome is modelled.
- JumpVal.JumpValOp.constructor: the source never derives the encoded case arguments from the case arguments it is given, so an op built this way keeps a null case table. `EnsureJumpMap` then fails with `NullPointer`, as `ensureJumpMap` does in the source.
- Methods.MethodStructure.constructor: returns and parameters are sequences of records with the fields the core reads.

## Findings

| source | as written | input that shows it | evidently intended | confidence | as-written member | corrected member |
|---|---|---|---|---|---|---|
| src/org/xvm/runtime/ServiceContext.java:293-356 | after a continuation answers `R_EXCEPTION` for the caller, the loop unwinds from the returned callee, whose own exception field is read | a callee with a continuation that raises exception 3 on a caller guarded at depth 0 | the exception is raised on the caller, and unwinding starts there | not executed | Scheduler.AsWrittenLosesCallerException | Scheduler.ContinuationRaisesOnCaller |
| src/org/xvm/runtime/template/_native/reflect/xRTFunction.java:655-660 | `calculateShift` asks the delegate for the shift of the unshifted index, so a binding made earlier at a higher position is not counted | binding parameter 1 and then parameter 0 of a three-parameter function: parameter 0 of the result gets shift 1 and lands at position 1, which is already bound | the remaining parameter maps to position 2 | not executed | Functions.ShiftMissesEarlierBinding | Functions.BoundArgsPlaceArguments |
| src/org/xvm/runtime/template/_native/reflect/xRTFunction.java:187-200 | each ordinal that is larger than the one just before it is lowered by one, whatever the earlier ordinals were | binding ordinals 0, 1 and 2 of a three-parameter function renumbers them to 0, 0 and 1; after the first two bindings the only parameter left is the original 2, at position 0, so the renumbered 1 names no parameter, and with the method known the third binding is an index fault | each ordinal is lowered by the number of earlier ordinals below it, which names the intended parameter | not executed | Binding.ThirdOrdinalMissesParameter | Binding.CorrectedFindsParameter |
| src/org/xvm/proto/template/collections/xTuple.java:227-309 | the trailing ", " is removed by cutting two characters even when no element was written | the empty tuple of class `Tuple` renders as `Tupl)` | `Tuple()` | not executed | Tuples.EmptyTupleText | Tuples.RenderShowsElements |
| src/org/xvm/runtime/template/xEnum.java:220-237 | the position of the value among all children of the enumeration is used as its ordinal | children `m` (a method), `A` and `B`: looking up `A` gives the handle of `B`, with ordinal 1 | the handle of `A`, with ordinal 0 | not executed | Enums.LookupByPositionCountsAllChildren | Enums.CorrectedFindsValue |
| src/org/xvm/asm/op/JumpVal.java:152-184 | the jump map stores a case's offset, and `complete` then uses that offset as an index into the offsets | cases 10 and 20 with offsets 1 and 7: the value 10 jumps by 7 | the value 10 jumps by its own offset 1 | not executed | JumpVal.AsWrittenTakesWrongCase | JumpVal.TargetOfCase |
| src/org/xvm/asm/OpCondJump.java:72-88 | `write` never emits the second argument of a binary op, though the reader reads it | any binary conditional jump: the reader takes the offset as the second argument and the next int as the offset | the writer emits the second argument of a binary op before the offset | not executed | CondJump.BinaryAsWrittenMisreads | CondJump.RoundTrip |
| src/org/xvm/asm/constants/TypeInfo.java:252-280 | the cache key is the name, the operator and the count joined without a separator | the query ("a", "+", 11) caches under `a+11`, and the query ("a", "+1", 1) is then answered from that cache | a cache per query, which a different query cannot hit | not executed | TypeInfos.OpKeyCollides | TypeInfos.FoundOpsSound |
| src/org/xvm/asm/constants/TypeInfo.java:321-374 | an ambiguity between two earlier matches stops the search before a later exact match is seen | conversions returning types 1, 2 and 0, where 1 and 2 are incomparable subtypes of 0, with 0 desired: the answer is none, while in the order 0, 1, 2 it is the exact match | the exact match is found whatever the visiting order | not executed | TypeInfos.ExactHiddenByAmbiguity | TypeInfos.CorrectedPrefersExact |
