# graftt transplant engine in Dafny

graftt merges ("transplants") a *donor* class into a *recipient* class at
the bytecode level. The engine in `Operations.kt` runs one sequential
pipeline of five steps:

1. Pre-flight: the donor must extend `java/lang/Object`.
2. Interfaces: all of the donor's interfaces are added, or none of them. A clash is recovered from.
3. Fields: non-mock donor fields are added, all or none. A field is rejected when:
   - a donor constructor or static initialiser stores to it; or
   - the recipient already has a field of that name.
4. Methods: each non-mock, non-initialiser donor method is handled in turn:
   - it is type-remapped;
   - it is decided by the four-way `Graft.Fuse` table;
   - when it fuses, its calls to itself are pointed at the renamed original, `name$original`. The original is dropped when nothing calls it.
5. Verification: an external structural verifier is run on the merged class.

A second entry point first reads the donor's `Graft.Recipient` annotation
and loads the recipient.

The model follows the source's shape.

The donor is a value (`Nodes.ClassDef`).

The recipient is `Operations.ClassNode`, a class whose member lists are
updated in place by:
- `FuseField`;
- `UpdateAndVerifyMethod`, which renames, rewrites and removes;
- `FuseMethod`;
- `Transplant`.

Every state-changing method is proved against a value-level function:
- `Fusion.UpdateAndVerify`;
- `Fusion.FuseStep`;
- `Fusion.MethodStage`;
- `Operations.FieldTransplants`;
- `Operations.Transplanted`.

The properties the engine promises are proved as lemmas over those
functions. They cover:
- all-or-nothing interfaces and fields;
- which field error wins;
- the fusion decision table;
- the self-call rewrite and its counts;
- the stop-at-first-error method stage;
- the failure modes.

A worked example (`Scenario`) takes a donor through the whole pipeline,
with and without a self-call.

The kotlin-result combinators the source builds on are modelled as follows:
- `mapAll` becomes `Results.MapAll` (stop at the first error).
- The recovering interface batch becomes `Operations.InterfacesAfter`.

Type remapping, which the source delegates to ASM's remapper, is a rename
of internal names through a `map<string, string>`. Names absent from the
map pass through unchanged (`Remapping.PassThroughRemap`).

Descriptors and generic signatures are structured values
(`Nodes.TypeDesc`, `Nodes.MethodDesc`, `Nodes.SigPart`), so nothing is
parsed. Annotations are flags:
- `isMock` and `isFuse`;
- an optional recipient name, for `Graft.Recipient`.

The recipient method a candidate may replace is looked up by the
candidate's name and descriptor *after* the candidate is type-remapped:
the lookup at `Operations.kt:100` runs on the transplant produced by the
remap at line 94.

## Model

| member | source | states |
|---|---|---|
| Results.MapAll | core/src/main/kotlin/net/onedaybeard/graftt/graft/Operations.kt:41-47 | succeeds exactly when every element passes; on success each mapped value is the check's value at the same position; on failure the error is the one of the first failing element |
| Results.FirstFailure | core/src/main/kotlin/net/onedaybeard/graftt/graft/Operations.kt:41-47 | index of the first failing element: every element before it passes, it fails, and it is the length exactly when no element fails |
| Results.Filter | core/src/main/kotlin/net/onedaybeard/graftt/graft/Operations.kt:143-150 | keeps exactly the elements satisfying the predicate, each as many times as in the input, as an order-preserving subsequence of the input |
| Classifier.GraftableMethods | core/src/main/kotlin/net/onedaybeard/graftt/graft/Operations.kt:143-146 | a method is graftable iff it is a donor method, not mocked, and neither `<init>` nor `<clinit>`; each graftable method occurs as often as in the donor, and donor order is kept |
| Classifier.GraftableFields | core/src/main/kotlin/net/onedaybeard/graftt/graft/Operations.kt:148-150 | a field is graftable iff it is a donor field and not mocked; each occurs as often as in the donor, and donor order is kept |
| Classifier.CtorOrStaticInit | core/src/main/kotlin/net/onedaybeard/graftt/graft/Operations.kt:199-201 | the excluded methods carry the special initialiser names of JVMS 2.9, which begin with `<`, so no ordinary method is excluded; its uses are stated by `GraftableMethods` and `InitializedByCtor` |
| Classifier.FieldInsnNodes | core/src/main/kotlin/net/onedaybeard/graftt/graft/Operations.kt:177-181 | exactly the method's field instructions whose opcode is among the requested ones, each as often as in the method, in the method's order |
| Classifier.StoredNamesSpec | core/src/main/kotlin/net/onedaybeard/graftt/graft/Operations.kt:188-189 | a name is among the names a method's PUTFIELD/PUTSTATIC instructions store to iff the method stores to that name, owner ignored |
| Classifier.StoredNameIsStored | core/src/main/kotlin/net/onedaybeard/graftt/graft/Operations.kt:188-189 | every collected name is one the method stores to |
| Classifier.StoreIsStoredName | core/src/main/kotlin/net/onedaybeard/graftt/graft/Operations.kt:188-189 | every name the method stores to is collected |
| Classifier.StoredFieldNamesSpec | core/src/main/kotlin/net/onedaybeard/graftt/graft/Operations.kt:186-189 | a name is among the names collected from the given methods' PUTFIELD/PUTSTATIC instructions iff one of those methods stores to that name |
| Classifier.InitializedByCtor | core/src/main/kotlin/net/onedaybeard/graftt/graft/Operations.kt:186-189 | the collected names are exactly those some donor constructor or static initialiser stores to (owner ignored) |
| Classifier.VerifyFieldsNotInitialized | core/src/main/kotlin/net/onedaybeard/graftt/graft/Operations.kt:184-197 | rejects a field iff a donor constructor or static initialiser stores to its name, with `FieldDefaultValueNotSupported(donor, field)`; otherwise passes the field through unchanged |
| Classifier.VerifyFieldNotPresent | core/src/main/kotlin/net/onedaybeard/graftt/graft/Operations.kt:75-80 | rejects iff the recipient has a field of that name (descriptor ignored), with `FieldAlreadyExists(donor, field)`; otherwise passes the transplant through |
| Remapping.MapMethodDesc | core/src/main/kotlin/net/onedaybeard/graftt/graft/Operations.kt:136 | the arity is kept and every parameter type and the return type are remapped through the lookup |
| Remapping.RemapMethod | core/src/main/kotlin/net/onedaybeard/graftt/graft/Operations.kt:131-140 | the remapped method keeps its name, flags and length, has the remapped descriptor and the remapped generic signature, and each instruction is the remapped instruction at the same position |
| Remapping.RemapRetargetsOwnCalls | core/src/main/kotlin/net/onedaybeard/graftt/graft/Operations.kt:107-118 | a call the donor makes on its own type is, after remapping, a call on `lookup[donor]` with the same name and the remapped descriptor, which is what the self-call filter looks for |
| Remapping.PassThroughTypeDesc | core/src/main/kotlin/net/onedaybeard/graftt/graft/Operations.kt:136 | a type descriptor all of whose class names the lookup leaves as they are (absent, or mapped to themselves) is unchanged |
| Remapping.PassThroughMethodDesc | core/src/main/kotlin/net/onedaybeard/graftt/graft/Operations.kt:136 | a method descriptor all of whose class names the lookup leaves as they are is unchanged |
| Remapping.PassThroughInsn | core/src/main/kotlin/net/onedaybeard/graftt/graft/Operations.kt:137 | an instruction all of whose class names the lookup leaves as they are is unchanged |
| Remapping.PassThroughRemap | core/src/main/kotlin/net/onedaybeard/graftt/graft/Operations.kt:131-140 | a method whose descriptor, signature and instructions mention only names the lookup leaves as they are is unchanged by the remap |
| Remapping.IdentityFixesType | core/src/main/kotlin/net/onedaybeard/graftt/graft/Operations.kt:131-140 | an identity lookup leaves every class name of every type descriptor as it is |
| Remapping.IdentityRemap | core/src/main/kotlin/net/onedaybeard/graftt/graft/Operations.kt:131-140 | remapping through an identity lookup gives back the same method, as a corollary of `PassThroughRemap` |
| Fusion.FindSignature | core/src/main/kotlin/net/onedaybeard/graftt/graft/Operations.kt:100 | the index of the first recipient method with the given name and descriptor, or none exactly when no method has them |
| Fusion.NoOccurrences | core/src/main/kotlin/net/onedaybeard/graftt/graft/Operations.kt:116-121 | zero instructions are counted exactly when the instruction does not occur, so the count is zero iff there is no self-call |
| Fusion.Redirected | core/src/main/kotlin/net/onedaybeard/graftt/graft/Operations.kt:116-120 | same length; each self-call (owner `self`, candidate's name and descriptor) is pointed at the target, every other instruction is unchanged |
| Fusion.RedirectSelfCalls | core/src/main/kotlin/net/onedaybeard/graftt/graft/Operations.kt:116-121 | the single pass over the instructions produces the redirected instructions and counts exactly the self-calls it rewrote |
| Fusion.RedirectedCounts | core/src/main/kotlin/net/onedaybeard/graftt/graft/Operations.kt:116-121 | after redirection no self-call remains, and calls to the target grow by exactly the number of self-calls |
| Fusion.SubstituteTransplants | core/src/main/kotlin/net/onedaybeard/graftt/graft/Operations.kt:131-140 | only the transplant's method changes, and it becomes the remapped method |
| Fusion.UpdateAndVerify | core/src/main/kotlin/net/onedaybeard/graftt/graft/Operations.kt:99-129 | the decision as a value: the method list keeps its length, or loses one method on a successful fusion; on success the transplant keeps its donor, lookup and the candidate's signature; every error is MethodAlreadyExists or WrongFuseSignature for the candidate. The four outcomes are `FuseDecision`, `CollisionLeavesOriginalRenamed` and `FusionOutcome` |
| Fusion.FuseStep | core/src/main/kotlin/net/onedaybeard/graftt/graft/Operations.kt:89-97 | a failed step keeps the number of methods and fails only with MethodAlreadyExists or WrongFuseSignature naming the donor; a successful one adds at most one method |
| Fusion.MethodStage | core/src/main/kotlin/net/onedaybeard/graftt/graft/Operations.kt:49-52 | the stage never shrinks the method list and adds at most one method per candidate; its stop-at-first-error behaviour is `MethodStageStopsAtFirstError` and `MethodStageSucceedsStepwise` |
| Fusion.FuseDecision | core/src/main/kotlin/net/onedaybeard/graftt/graft/Operations.kt:104-114 | the four-way table on (Fuse annotation, a recipient method with the remapped name and descriptor): match without Fuse gives MethodAlreadyExists; Fuse without match gives WrongFuseSignature and leaves the methods; neither appends the remapped candidate to the unchanged methods; both succeed without shrinking the methods |
| Fusion.CollisionLeavesOriginalRenamed | core/src/main/kotlin/net/onedaybeard/graftt/graft/Operations.kt:100-112 | a colliding non-fused candidate fails with MethodAlreadyExists and the recipient's first matching method is left renamed `name$original` |
| Fusion.FusionOutcome | core/src/main/kotlin/net/onedaybeard/graftt/graft/Operations.kt:115-127 | on fusion the original is dropped iff no self-call was redirected and kept renamed in place otherwise; the candidate comes last and is exactly the remapped candidate with its self-calls pointed at `name$original` and nothing else changed, so no self-call is left and its calls to `name$original` grow by the number redirected |
| Fusion.FuseKeepsSignatureUnique | core/src/main/kotlin/net/onedaybeard/graftt/graft/Operations.kt:99-129 | if the recipient had at most one method with the candidate's remapped signature, after a successful step exactly one has it: the candidate, appended last |
| Fusion.MethodStageStopsAtFirstError | core/src/main/kotlin/net/onedaybeard/graftt/graft/Operations.kt:49-52 | a failing method stage is the first failing candidate's step applied after all earlier candidates were grafted successfully |
| Fusion.MethodStageSucceedsStepwise | core/src/main/kotlin/net/onedaybeard/graftt/graft/Operations.kt:49-52 | a successful method stage means every candidate's step succeeded on the state its predecessors left |
| Fusion.MethodStageErrors | core/src/main/kotlin/net/onedaybeard/graftt/graft/Operations.kt:111-113 | the method stage fails only with MethodAlreadyExists or WrongFuseSignature naming the donor |
| Fusion.RenamedIsOriginal | core/src/main/kotlin/net/onedaybeard/graftt/graft/Operations.kt:101-102 | a renamed original carries the `$original` suffix |
| Fusion.AppendKeepsDistinct | core/src/main/kotlin/net/onedaybeard/graftt/graft/Operations.kt:166-169 | appending a method whose signature no other method has, renamed originals aside, keeps signatures distinct |
| Fusion.RemoveKeepsDistinct | core/src/main/kotlin/net/onedaybeard/graftt/graft/Operations.kt:123-124 | removing a method keeps signatures distinct |
| Fusion.RenameClearsSignature | core/src/main/kotlin/net/onedaybeard/graftt/graft/Operations.kt:100-102 | renaming the first method with the candidate's signature leaves none with it, renamed originals aside, and keeps signatures distinct |
| Fusion.FuseStepKeepsSignaturesDistinct | core/src/main/kotlin/net/onedaybeard/graftt/graft/Operations.kt:89-129 | whatever its outcome, one method step leaves no two methods with the same name and descriptor unless one is a renamed original |
| Fusion.MethodStageKeepsSignaturesDistinct | core/src/main/kotlin/net/onedaybeard/graftt/graft/Operations.kt:49-52 | the whole method stage keeps signatures distinct, renamed originals aside |
| Operations.ClassNode.GraftField | core/src/main/kotlin/net/onedaybeard/graftt/graft/Operations.kt:172-175 | the field is appended; nothing else of the recipient changes |
| Operations.ClassNode.FuseField | core/src/main/kotlin/net/onedaybeard/graftt/graft/Operations.kt:83-86 | always succeeds, appending the field and changing nothing else |
| Operations.ClassNode.GraftMethod | core/src/main/kotlin/net/onedaybeard/graftt/graft/Operations.kt:166-169 | the method is appended; nothing else of the recipient changes |
| Operations.ClassNode.UpdateAndVerifyMethod | core/src/main/kotlin/net/onedaybeard/graftt/graft/Operations.kt:99-129 | the in-place rename, decision, redirect and removal return and leave exactly what `Fusion.UpdateAndVerify` says; only the method list changes |
| Operations.ClassNode.FuseMethod | core/src/main/kotlin/net/onedaybeard/graftt/graft/Operations.kt:89-97 | copy, remap, decide and append return and leave exactly what `Fusion.FuseStep` says; only the method list changes |
| Operations.ClassNode.FuseFields | core/src/main/kotlin/net/onedaybeard/graftt/graft/Operations.kt:47 | every accepted field is appended in order; nothing else changes |
| Operations.ClassNode.FuseMethods | core/src/main/kotlin/net/onedaybeard/graftt/graft/Operations.kt:49-52 | the candidates are fused in order until the first error, with result and method list equal to `Fusion.MethodStage` |
| Operations.CheckRecipientInterface | core/src/main/kotlin/net/onedaybeard/graftt/graft/Operations.kt:27-31 | accepts iff the recipient does not implement the interface yet, otherwise InterfaceAlreadyExists(donor, iface) |
| Operations.InterfacesAfter | core/src/main/kotlin/net/onedaybeard/graftt/graft/Operations.kt:35-39 | the recipient's interfaces are kept and either nothing or all of the donor's are appended; which one is `Properties.InterfacesAllOrNothing` |
| Operations.FieldTransplants | core/src/main/kotlin/net/onedaybeard/graftt/graft/Operations.kt:41-46 | on success one transplant per graftable field, each stamped with the remapped donor name; every error is FieldDefaultValueNotSupported or FieldAlreadyExists naming the donor. Exactly when and which is `Properties.FieldChecksAccept`, `FieldDefaultValueRejected` and `FieldClashRejected` |
| Operations.Transplanted | core/src/main/kotlin/net/onedaybeard/graftt/graft/Operations.kt:21-56 | the pipeline as a value never changes the recipient's name, superclass or annotation, leaves its interfaces or appends all the donor's, and never shrinks the method list, growing it by at most one method per graftable method |
| Operations.Transplant | core/src/main/kotlin/net/onedaybeard/graftt/graft/Operations.kt:21-56 | the in-place pipeline leaves the recipient as `Transplanted` says, returns the recipient itself exactly when `Transplanted` succeeds, and otherwise its error |
| Operations.ReadRecipientType | core/src/main/kotlin/net/onedaybeard/graftt/graft/Operations.kt:156-162 | the annotated recipient type when there is one, else MissingGraftTargetAnnotation(donor) |
| Operations.IsTransplant | core/src/main/kotlin/net/onedaybeard/graftt/graft/Operations.kt:152-153 | a class is a transplant iff it names a recipient |
| Operations.TransplantFrom | core/src/main/kotlin/net/onedaybeard/graftt/graft/Operations.kt:62-71 | a missing annotation gives MissingGraftTargetAnnotation, a loader error is passed through, otherwise the loaded recipient (a fresh node) is transplanted into as `Transplanted` says |
| Properties.PreflightRejects | core/src/main/kotlin/net/onedaybeard/graftt/graft/Operations.kt:24-25 | a donor not extending `java/lang/Object` is rejected with TransplantMustNotExtendClass and the recipient is untouched |
| Properties.InterfacesAllOrNothing | core/src/main/kotlin/net/onedaybeard/graftt/graft/Operations.kt:35-39 | if any donor interface is already implemented none is added, otherwise all are appended in donor order |
| Properties.FieldChecksAccept | core/src/main/kotlin/net/onedaybeard/graftt/graft/Operations.kt:41-46 | the field checks pass iff no graftable field is initialised by a donor initialiser or named like a recipient field; then they carry the graftable fields in order, stamped with the remapped donor name |
| Properties.PresenceDecides | core/src/main/kotlin/net/onedaybeard/graftt/graft/Operations.kt:43-45 | when no graftable field is initialised, the field step fails exactly when, and with the error with which, the presence checks fail |
| Properties.FieldDefaultValueRejected | core/src/main/kotlin/net/onedaybeard/graftt/graft/Operations.kt:41-45 | if some graftable field is initialised, the step fails with FieldDefaultValueNotSupported for the first such field, whatever name clashes exist |
| Properties.FieldClashRejected | core/src/main/kotlin/net/onedaybeard/graftt/graft/Operations.kt:41-45 | if no graftable field is initialised but some clash by name, the step fails with FieldAlreadyExists for the first clashing field |
| Properties.FieldsAllOrNothing | core/src/main/kotlin/net/onedaybeard/graftt/graft/Operations.kt:41-49 | when every graftable field passes, all are appended in donor order; otherwise the transplant fails with the recipient's fields and methods as they were |
| Properties.FieldNamesStayDistinct | core/src/main/kotlin/net/onedaybeard/graftt/graft/Operations.kt:41-47 | distinct recipient field names and distinct graftable field names stay distinct after any transplant |
| Properties.FailuresAreFatalErrors | core/src/main/kotlin/net/onedaybeard/graftt/graft/Operations.kt:21-56 | a failed transplant fails with the pre-flight error, a field error or a method error naming the donor, or with the verifier's verdict; never with InterfaceAlreadyExists from the engine |
| Properties.SuccessMeansEveryStepPassed | core/src/main/kotlin/net/onedaybeard/graftt/graft/Operations.kt:21-56 | success means the donor extends Object, the verifier accepted the merged class, the interfaces are those of the interface step, all graftable fields were appended, and name, superclass and annotation are unchanged |
| Properties.MethodSignaturesStayDistinct | core/src/main/kotlin/net/onedaybeard/graftt/graft/Operations.kt:21-56 | if no two recipient methods share a name and descriptor, renamed originals aside, the same holds after any transplant outcome |
| Scenario.ExampleFields | core/src/main/kotlin/net/onedaybeard/graftt/graft/Operations.kt:35-47 | in the worked example no interface is added and the field `counter` is accepted |
| Scenario.CtorStoresNothing | core/src/main/kotlin/net/onedaybeard/graftt/graft/Operations.kt:184-197 | the example donor's constructor does not initialise `counter` |
| Scenario.RemapCalling | core/src/main/kotlin/net/onedaybeard/graftt/graft/Operations.kt:131-140 | remapping `Helper` to `Target` turns the donor's self-call into a call on `Target` |
| Scenario.RemapAlone | core/src/main/kotlin/net/onedaybeard/graftt/graft/Operations.kt:131-140 | a method that names no remapped type is unchanged by the remap |
| Scenario.OnlyIncMoves | core/src/main/kotlin/net/onedaybeard/graftt/graft/Operations.kt:143-146 | of the example donor's constructor and `inc`, only `inc` is graftable |
| Scenario.CallingStep | core/src/main/kotlin/net/onedaybeard/graftt/graft/Operations.kt:99-129 | a fused `inc` calling itself keeps the recipient's `inc` as `inc$original` and appends the new `inc` calling it |
| Scenario.AloneStep | core/src/main/kotlin/net/onedaybeard/graftt/graft/Operations.kt:99-129 | a fused `inc` not calling itself replaces the recipient's `inc` outright |
| Scenario.SingleStage | core/src/main/kotlin/net/onedaybeard/graftt/graft/Operations.kt:49-52 | a method stage of one successful candidate is that candidate's step |
| Scenario.TransplantedIsMethodStage | core/src/main/kotlin/net/onedaybeard/graftt/graft/Operations.kt:21-56 | in the example, the transplant is the method stage on the recipient plus the field, followed by the verifier |
| Scenario.FusedWithSelfCall | core/src/main/kotlin/net/onedaybeard/graftt/graft/Operations.kt:21-56 | the full example with a self-call ends with `counter`, `inc$original` and the new `inc` |
| Scenario.FusedWithoutSelfCall | core/src/main/kotlin/net/onedaybeard/graftt/graft/Operations.kt:21-56 | the full example without a self-call ends with `counter` and the new `inc` only |

## Left out

- ASM's remapper (`toRemapper`, `mapDesc`, `mapSignature`, `MethodRemapper`) is library code that is not part of this model. It is modelled as a rename of every class name in descriptors, signatures and instruction operands through the lookup map; method and field names are never renamed. Descriptor and signature text is not parsed.
- Instructions other than method calls, field accesses and type instructions are opaque (`OtherInsn`); invokedynamic, LDC of class constants, frames and local-variable tables are not remapped.
- The structural verifier (`verify`, line 55) and the class loader (line 63) are external; both are function parameters with unconstrained results.
- Annotations are read as flags (`isMock`, `isFuse`) and as an optional recipient name; annotation nodes and reflection over them are not modelled.
- The `Msg.None` path for a donor with a null interface or annotation list does not arise: lists are never null here, and a missing annotation is `None`.
- Operations.Transplant: requires the donor's name to be in the lookup map even when no method reaches the `!!` at line 108; the source throws there, and the model excludes that input instead.
- Operations.ClassNode.FuseField: returns unit rather than the recipient node, since the node is the receiver the caller already holds.
- Object identity and aliasing (the donor and recipient being the same node, the ASM `copy()` calls at lines 93 and 173) are not modelled; members are values, so the donor's method is never changed by fusing its copy.
- Field fusion (`Graft.Fuse` on a field, as in the test fixture `FusedField.java`) is not modelled; the engine shown rejects every field name clash.
- The exact scope of the recovery in `safeRecover` (line 39) is not visible; the model recovers from any interface conflict by adding no interface and continuing.
