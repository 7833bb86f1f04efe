# Gruel middle end and cache, modelled in Dafny

Gruel is a compiler. This project models the parts of its middle end and of its incremental cache
whose correctness rests on arguments that span several functions, and proves those arguments for all
inputs:

- **Layout** (`Types`, `Layout`, `Storage`, `Alignment`, `LayoutCache`): sizes, alignments, niches and the
  two enum encodings over a pool of type definitions; a byte-level memory model in which a niche is never
  hit and every value reads back; where every part and leaf of a value sits.
- **Type intern pool** (`InternPool`, `TypeInternPool`, `LayoutRuns`, `LayoutThreads`, `Interleaving`):
  hash-consing, two-phase reservation, rebuilding the lookup maps, the layout cache, and threads as
  interleaved read-check / recheck-and-insert steps that refine atomic calls.
- **AIR** (`Patterns`, `Air`, `AirLaws`): instructions with a side array of words, the self-delimiting
  pattern code, and an interpreter with fuel that records effects in order.
- **Specialization** (`CallSites`, `Mangling`, `Specialize`, `SpecializePasses`, `SpecializeMeaning`): what a
  generic call site records, the fixpoint loop over in-place AIR objects, which keys it makes, and that
  running the result is running the generic program.
- **Drop glue** (`DropNames`, `DropNaming`, `DropTrace`, `DropLoss`, `Abi`, `DropGlue`, `DropProof`,
  `DropSynthesis`): the builders, the bodies they emit, the words a value is passed in, and what running
  those bodies does to a value of any type.
- **Signatures** (`Ast`, `Renaming`, `Signature`, `FileSignature`, `PublicOrder`, `SignatureHasher`, `Wire`):
  the byte stream behind a file's signature fingerprint, when two files share it, and cached files moving
  between interners.
- **Names and small state machines** (`Decimal`, `TypeSyntax`, `TypeNames`, `Scope`, `Merge`).

`dafny verify dfyconfig.toml` checks everything.

Assumptions carried by the whole model: by-value containment of types is well founded (`WellFormed`
asks for a rank), sizes and offsets stay below 2^32 where the source casts them (`SizesFit`), and pool
indices fit the 24 bits of the type encoding only where that encoding is used. A panic of the source is
a `None`, or a `requires` where the source states it as an assertion.

## Where the code and its documentation part

- `EnumDef::is_c_layout` is documented as switching niche encoding off; `compute_layout` tries the niche
  first. The model follows the code; `Layout.CEnumKeepsTag` gives the exact condition.
- `complete_struct_registration` is documented to panic on a slot that was not reserved; it checks the
  bounds and the name only. `InternPool.CompleteExact`.
- `pop_scope` replays saved entries forwards, so a symbol inserted twice in one scope is not restored.
  `Scope.ScopeRestoresExactly`.
- Array glue has no case for elements that are enums or vectors. `DropSynthesis.DropsCompletelyExactly`.
- `interned_to_type_recursive` has no arm for `char` and the C types. `Types.ElementConversionRoundTrip`.
- `update_struct_def` and `update_enum_def` leave the layout cache alone. `LayoutCache.UpdateCacheExact`.
- A reserved slot that is never completed enters the name map when a pool is rebuilt.
  `InternPool.RebuildExact`.
- The signature module says it hashes directives that affect signatures and treats interfaces as `pub`
  items; the encoder skips all directives, and includes interfaces and derives whatever their visibility.
  `encode_link_extern` is never reached, because extern blocks are not collected.

## Model

| member | source | states |
|---|---|---|
| Types.KindOfEncoding | crates/gruel-air/src/types.rs:1063-1112 | decoding the 32-bit word of a type gives that type back exactly when its pool index fits 24 bits |
| Types.AsU32Injective | crates/gruel-air/src/types.rs:1617-1633 | distinct types whose indices fit have distinct words |
| Types.OverflowExample | crates/gruel-air/src/types.rs:556-558 | entry 2^24 has the word of entry 0 |
| Types.ElementConversionRoundTrip | crates/gruel-air/src/intern_pool.rs:1457-1557 | interning a type as an element and reading it back is the identity exactly on types that can be interned and are neither `char` nor a C type |
| Types.CharElementExample | crates/gruel-air/src/intern_pool.rs:1457-1478 | the element of `[char; 1]` can be interned and not read back |
| Types.EntryKind | crates/gruel-air/src/intern_pool.rs:1457-1557 | the tag of an entry's type says what kind of data the entry holds |
| Layout.AlignUpIsAligned | crates/gruel-air/src/layout.rs:437-443 | the result is aligned, and an aligned value stays |
| Layout.FieldInBounds | crates/gruel-air/src/layout.rs:206-240 | every struct field lies inside the struct |
| Layout.FieldsDisjoint | crates/gruel-air/src/layout.rs:206-240 | no two struct fields overlap |
| Layout.StructLayoutTight | crates/gruel-air/src/layout.rs:206-240 | each field starts at the first aligned offset and the size is the first multiple of the alignment: nothing is wasted |
| Layout.TaggedLayoutTight | crates/gruel-air/src/layout.rs:349-382 | a tagged enum is as small as its tag and its largest variant allow |
| Layout.CTaggedLayoutTight | crates/gruel-air/src/layout.rs:307-347 | a C tagged union is as small as the alignment of its tag and its largest variant allow |
| Layout.ComputedLayoutFits | crates/gruel-air/src/layout.rs:139-269 | for every type, every exposed niche lies inside the type and is a nonempty range of its width |
| Layout.NicheBudget | crates/gruel-air/src/layout.rs:392-434 | a first niche of c values pays for exactly c nested options: level k keeps size and alignment and uses the k-th forbidden value, level c+1 adds a one-byte tag |
| Layout.CEnumKeepsTag | crates/gruel-air/src/layout.rs:252-257 | a C enum keeps its tag exactly when it is not an option over a type with a niche |
| Layout.CEnumNicheExample | crates/gruel-air/src/types.rs:916-919 | a C enum over `bool` that is niche-encoded all the same |
| Storage.PartsInBounds | crates/gruel-air/src/layout.rs:275-434 | fields, elements and variant fields lie inside the type and after the tag |
| Storage.PartsDisjoint | crates/gruel-air/src/layout.rs:275-434 | no two parts of a value overlap |
| Storage.NicheSound | crates/gruel-air/src/layout.rs:12-28 | for every type and every image of every valid value, no exposed niche's bytes fall in its forbidden range, and they are clear of padding, through any nesting |
| Storage.LeafNichesExact | crates/gruel-air/src/layout.rs:139-181 | the niches of `bool` and `char` are exactly the invalid bit patterns |
| Storage.UnitEnumNicheExact | crates/gruel-air/src/layout.rs:275-305 | the niche of a unit-only enum is exactly the tag values that are no variant index |
| Storage.VariantReadsBack | crates/gruel-air/src/layout.rs:46-83 | under either strategy, decoding the discriminant of an enum's image gives the stored variant |
| Storage.ReadBack | crates/gruel-air/src/layout.rs:46-83 | reading any image of a value gives exactly that value, for every type |
| Storage.TagHoldsIndex | crates/gruel-air/src/types.rs:951-967 | the discriminant type is wide enough for every variant index |
| Storage.WriteStores | crates/gruel-air/src/layout.rs:139-434 | writing a value part by part gives an image of it |
| Storage.WriteThenRead | crates/gruel-air/src/layout.rs:139-434 | what is written is read, whatever was in memory before |
| Alignment.AlignedExact | crates/gruel-air/src/layout.rs:437-443 | clear low bits are divisibility by the alignment |
| Alignment.SizeAligned | crates/gruel-air/src/layout.rs:139-382 | every type's size is a multiple of its alignment |
| Alignment.PartAligned | crates/gruel-air/src/layout.rs:206-250 | every part with bytes of a struct, array or niche-encoded enum starts at a multiple of its own alignment, which divides the whole's |
| Alignment.AlignAttained | crates/gruel-air/src/layout.rs:206-250 | a struct is aligned as its strictest field with bytes, an array as its element, a niche-encoded enum as its payload, and no more |
| Alignment.ArrayTight | crates/gruel-air/src/layout.rs:242-250 | an array ends where its last element does |
| Alignment.VariantPacked | crates/gruel-air/src/layout.rs:331-341 | the fields of a tagged variant follow one another without padding |
| Alignment.FirstFieldPlace | crates/gruel-air/src/layout.rs:317-353 | the first starts right after the tag, in a C union at the first multiple of the union's alignment after it |
| Alignment.ReachedAligned | crates/gruel-air/src/layout.rs:206-250 | whatever is reached through structs, arrays and niche-encoded enums, at any depth, lies inside the value and, if it has bytes, at a multiple of its own alignment |
| Alignment.TaggedFieldExample | crates/gruel-air/src/layout.rs:349-382 | not so behind a tag: the `i64` of `enum { A(i64), B }` sits at offset 1 |
| Alignment.StructNichesComplete | crates/gruel-air/src/layout.rs:218-227 | a struct exposes every niche of every field with bytes, in field order and moved to the field's place, and no others |
| Alignment.CUnionAlign | crates/gruel-air/src/layout.rs:307-318 | a C union is aligned as strictly as its tag and every field of every variant, and no more |
| Alignment.TaggedAlign | crates/gruel-air/src/layout.rs:275-305 | any other tagged enum is aligned as its tag, and one without data is its tag |
| Alignment.TagIsNarrowest | crates/gruel-air/src/types.rs:951-967 | the tag is the narrowest of 1, 2, 4 and 8 bytes that counts the variants |
| Alignment.EmptyEnum | crates/gruel-air/src/types.rs:951-967 | an enum without variants has no bytes, and a C enum always a `c_int` tag |
| Alignment.SizedPrims | crates/gruel-air/src/layout.rs:155-158 | `i8` to `f64` have the width of their names and are aligned to it |
| Alignment.CTypesLikeGruel | crates/gruel-air/src/layout.rs:184-197 | C types are laid out as their counterparts |
| Alignment.LeafWords | crates/gruel-air/src/layout.rs:182-204 | pointers are one word, slices and interfaces two, vectors three |
| InternPool.InternKeepsInv | crates/gruel-air/src/intern_pool.rs:546-574 | interning or registering keeps the map the inverse of the keys of the completed entries |
| InternPool.ReserveKeepsInv | crates/gruel-air/src/intern_pool.rs:596-622 | reserving keeps it |
| InternPool.UpdateKeepsInv | crates/gruel-air/src/intern_pool.rs:1023-1053 | updating a definition keeps it |
| InternPool.InternAnswers | crates/gruel-air/src/intern_pool.rs:546-574 | the id answered names an entry that is the type asked for, all its data for a structural type, kind and name for a nominal one; it is new exactly when no completed entry was that type, and nothing else changes |
| InternPool.DefinitionRead | crates/gruel-air/src/intern_pool.rs:1023-1053 | after an update or a completion the slot reads exactly the new definition, and every other slot and name reads as before |
| InternPool.InternUnfolds | crates/gruel-air/src/intern_pool.rs:698-882 | the id answered, written out in full, is the type asked for |
| InternPool.CompleteExact | crates/gruel-air/src/intern_pool.rs:635-659 | completing keeps it exactly when the slot is reserved and not yet completed |
| InternPool.CompletedTwiceExample | crates/gruel-air/src/intern_pool.rs:635-659 | a slot completed twice, which the source accepts, leaves a name that leads to the wrong entry |
| InternPool.IdsAreCanonical | crates/gruel-air/src/intern_pool.rs:698-882 | two ids are equal exactly when the types, written out in full, are equal |
| InternPool.RebuildExact | crates/gruel-air/src/intern_pool.rs:339-402 | rebuilding the map from the type list gives the same map exactly when no slot is waiting to be completed, or the default name was registered after all that are |
| InternPool.CopyAnswersAlike | crates/gruel-air/src/intern_pool.rs:453-508 | wherever rebuilding gives the original map, the copy answers every later sequence of calls with the same ids |
| InternPool.WaitingSlotExample | crates/gruel-air/src/intern_pool.rs:453-508 | a snapshot taken between reserving and completing that answers differently |
| LayoutCache.AppendKeepsLayout | crates/gruel-air/src/layout.rs:130-269 | interning later types changes no earlier type's layout |
| LayoutCache.AppendKeepsCache | crates/gruel-air/src/intern_pool.rs:439-442 | a cache that agrees with recomputation still agrees after any intern |
| LayoutCache.UpdateCacheExact | crates/gruel-air/src/intern_pool.rs:1023-1053 | after a definition update the cache agrees exactly when the updated type was never queried or its new layout is the cached one |
| LayoutCache.StaleCacheExample | crates/gruel-air/src/intern_pool.rs:1023-1033 | a struct cached and then updated to a larger field |
| LayoutCache.CacheInsert | crates/gruel-air/src/intern_pool.rs:531-540 | inserting a recomputed layout keeps the agreement |
| TypeInternPool.Pool.constructor | crates/gruel-air/src/intern_pool.rs:511-528 | a new pool is empty and consistent, and so is its cache |
| TypeInternPool.Pool.InternType | crates/gruel-air/src/intern_pool.rs:546-574 | the type list grows by exactly the data asked for if it is new; the new pool is the atomic intern of the old one, with its id and novelty flag; a right cache stays right |
| TypeInternPool.Pool.ReserveStructId | crates/gruel-air/src/intern_pool.rs:596-622 | the new pool is the atomic reservation; a right cache stays right |
| TypeInternPool.Pool.CompleteStructRegistration | crates/gruel-air/src/intern_pool.rs:635-659 | the new pool is the atomic completion, consistent exactly for a reserved slot; a cache without the slot stays right |
| TypeInternPool.Pool.UpdateDef | crates/gruel-air/src/intern_pool.rs:1023-1053 | the slot holds the new definition and every other is unchanged; the cache is untouched and stays right if the type was not queried |
| TypeInternPool.Pool.CloneSnapshot | crates/gruel-air/src/intern_pool.rs:453-508 | the clone has the same types, and the same map exactly when no slot is waiting or the default name came later |
| TypeInternPool.Pool.LayoutOf | crates/gruel-air/src/layout.rs:130-137 | the cached query returns what uncached computation returns and keeps the cache in agreement |
| TypeInternPool.Pool.ComputeStruct | crates/gruel-air/src/layout.rs:206-240 | the loop over offset, alignment and niches computes the struct layout |
| TypeInternPool.Pool.VariantFieldLayouts | crates/gruel-air/src/layout.rs:275-305 | the loop over variants collects every field's layout |
| LayoutRuns.Run | crates/gruel-air/src/layout.rs:130-137 | in every run in which all definitions precede the first layout query, each query answers what uncached computation would, after any later intern |
| LayoutRuns.RunOp | crates/gruel-air/src/intern_pool.rs:531-540 | one operation of such a run keeps the cache right |
| LayoutThreads.StepKeepsRight | crates/gruel-air/src/layout.rs:130-137 | a lookup, a computation from the parts' answers, a store or an intern keeps cached, computed and handed-out layouts right |
| LayoutThreads.AnswersAreLayouts | crates/gruel-air/src/layout.rs:130-269 | under every interleaving of queries and interns every answer is what uncached computation gives, then and later |
| Interleaving.StepRefines | crates/gruel-air/src/intern_pool.rs:404-443 | every step of every thread is one atomic call with the recorded answer, or changes nothing shared |
| Interleaving.RunsAreAtomic | crates/gruel-air/src/intern_pool.rs:546-574 | every interleaving is a sequence of atomic calls with the same answers and the same, consistent, pool |
| Interleaving.OneIdPerKey | crates/gruel-air/src/intern_pool.rs:665-725 | across all threads two calls get the same id exactly when they asked for the same type, by all its data if structural, by kind and name if nominal |
| Interleaving.AnswersMean | crates/gruel-air/src/intern_pool.rs:546-574 | at the end of every run each id handed out leads to an entry that is the type it was asked for |
| Interleaving.ExactlyOneIsNew | crates/gruel-air/src/intern_pool.rs:546-574 | exactly one caller is told that a registered key is new |
| Interleaving.MeaningIsStable | crates/gruel-air/src/intern_pool.rs:731-882 | from the moment an entry is complete it stays the type that it was, whatever runs |
| Patterns.DecodeEncode | crates/gruel-air/src/inst.rs:370-595 | decoding the code of any nested pattern, followed by any words, gives the pattern and uses exactly its words |
| Patterns.EncodePatternTree | crates/gruel-air/src/inst.rs:380-466 | the encoder appends exactly the pattern's code |
| Patterns.DecodePatternTree | crates/gruel-air/src/inst.rs:469-594 | the decoder with a moving offset computes the decoding function, errors included |
| Patterns.MatchArmIterator.Next | crates/gruel-air/src/inst.rs:596-615 | the iterator returns the stored arms one by one and keeps its place |
| Patterns.GetMatchArms | crates/gruel-air/src/inst.rs:904-913 | walking the arms gives those stored, whatever was appended later |
| Air.Air.AddInst | crates/gruel-air/src/inst.rs:814-818 | appends one instruction and returns its index |
| Air.Air.AddExtra | crates/gruel-air/src/inst.rs:853-878 | appends words and returns where they start |
| Air.Air.SetComptimeValueArgs | crates/gruel-air/src/inst.rs:792-802 | records value arguments for an instruction, unless there are none |
| Air.Air.RewriteInstData | crates/gruel-air/src/inst.rs:974-976 | replaces the data of one instruction and keeps its type |
| CallSites.TypeArgsRoundTrip | crates/gruel-air/src/specialize.rs:182-187 | the type arguments of a call come back exactly when all their indices fit |
| CallSites.ArgsRoundTrip | crates/gruel-air/src/inst.rs:890-899 | arguments stored as pairs of reference and mode come back |
| CallSites.EmitCallGeneric | crates/gruel-air/src/sema/analyze_ops.rs:8090-8125 | the emitter appends the words of the types and of the arguments, the instruction, and the value arguments on the side |
| CallSites.KeyOfEmitted | crates/gruel-air/src/specialize.rs:175-198 | in any body grown from there, the key read for the call is its function, type arguments and value arguments, exactly when the types can be encoded |
| CallSites.RefsOfEmitted | crates/gruel-air/src/inst.rs:890-899 | and its arguments are read in order |
| CallSites.KeysExact | crates/gruel-air/src/specialize.rs:169-212 | every generic call of a finished body has the key it was emitted with, and nothing else has one |
| CallSites.SharedExactly | crates/gruel-air/src/specialize.rs:189-208 | two call sites share a specialization exactly when function, type arguments and value arguments are equal |
| CallSites.AsksExactly | crates/gruel-air/src/specialize.rs:169-212 | a finished body asks for exactly the specializations it was built to call |
| Mangling.MangleSpecializedName | crates/gruel-air/src/specialize.rs:271-319 | the appending loops compute the mangled name |
| Mangling.MangleValueExample | crates/gruel-air/src/specialize.rs:287-318 | the code of a boolean, a unit, a type and an opaque value |
| Mangling.MangleNumberExample | crates/gruel-air/src/specialize.rs:287-310 | the code of a negative and a positive integer and of a comptime string |
| Mangling.MangleTypeExample | crates/gruel-air/src/specialize.rs:277-284 | the code of `i32` |
| Mangling.MangleStructExample | crates/gruel-air/src/specialize.rs:277-284 | the code of a struct |
| Mangling.MangleInjectivePerBase | crates/gruel-air/src/specialize.rs:271-319 | for one base name, distinct type and value arguments have distinct names |
| Mangling.MangleInjective | crates/gruel-air/src/specialize.rs:271-319 | so do whole keys with a type argument over base names without `#` |
| Mangling.MangleCollidesExactly | crates/gruel-air/src/specialize.rs:271-319 | two plain keys, the shorter base first, share a name exactly when the second is the first with leading arguments written into its base name |
| Mangling.ValueOnlyCollision | crates/gruel-air/src/specialize.rs:285-319 | two keys without type arguments that share a name |
| Specialize.CollectSpecializations | crates/gruel-air/src/specialize.rs:169-212 | exactly the keys a body asks for are added, each with its mangled name |
| Specialize.RewriteCallGeneric | crates/gruel-air/src/specialize.rs:215-260 | the body is rewritten in place to the one with every named generic call a plain call |
| Specialize.RewriteTwice | crates/gruel-air/src/specialize.rs:104-114 | rewriting in rounds with a growing map is rewriting once with the last |
| Specialize.Round | crates/gruel-air/src/specialize.rs:87-149 | a round finishes, names a needed key that cannot be made, or strictly shrinks the keys left |
| Specialize.Specialize | crates/gruel-air/src/specialize.rs:78-150 | with finitely many reachable keys the loop ends; on success the new keys are exactly the needed ones, each has one body, all bodies are rewritten and no generic call is left; on failure a needed key cannot be made |
| Specialize.SuccessLacksNothing | crates/gruel-air/src/specialize.rs:120-148 | success excludes any needed key that cannot be made |
| SpecializePasses.PassExtends | crates/gruel-air/src/specialize.rs:78-150 | a pass over earlier output and new functions, sharing the name map, keeps every old function and adds one body per new key |
| SpecializePasses.RunOfPasses | crates/gruel-air/src/specialize.rs:78-150 | after any list of passes every function is its original rewritten with the last map, without generic calls |
| SpecializePasses.OneBodyPerKey | crates/gruel-air/src/specialize.rs:94-102 | after any list of passes each key in the map has exactly one body |
| SpecializePasses.SpecializeBatch | crates/gruel-air/src/sema/analysis.rs:1225-1237 | one batch of new functions and one more pass lengthen the chain |
| SpecializePasses.SpecializeBatches | crates/gruel-air/src/sema/analysis.rs:1218-1256 | the pass after each batch, over one accumulator and one map, is such a list of passes, or meets a key that cannot be made |
| SpecializeMeaning.EvalSame | crates/gruel-air/src/specialize.rs:215-260 | an instruction of a rewritten body evaluates as the original does, at every fuel |
| SpecializeMeaning.PassesTranslate | crates/gruel-air/src/specialize.rs:78-150 | the program after any list of passes is a translation of the generic one over all functions ever added |
| SpecializeMeaning.SpecializationPreservesMeaning | crates/gruel-air/src/specialize.rs:78-150 | after any list of passes, calling any function with any arguments, state and fuel gives the result and effects of the generic program |
| SpecializeMeaning.HashFreeNamesApart | crates/gruel-air/src/specialize.rs:271-319 | all names are apart when every specialization takes types and no function, call or drop name has a `#` |
| DropTrace.NeedsDropExact | crates/gruel-cfg/src/drop_names.rs:20-46 | a type needs dropping exactly when it contains by value, at some depth, a vector or a type with a user destructor |
| DropNames.DropFnNameExact | crates/gruel-cfg/src/drop_names.rs:57-89 | a drop function name exists for exactly the droppable structs, enums and arrays |
| DropTrace.NothingToDrop | crates/gruel-cfg/src/drop_names.rs:20-46 | a type that does not need dropping has no drop event in any value |
| DropTrace.LostAccounts | crates/gruel-compiler/src/drop_glue.rs:254-287 | the glue's events and the lost ones make up the full trace |
| DropTrace.GlueCompleteExactly | crates/gruel-compiler/src/drop_glue.rs:285-286 | the glue trace is the full trace exactly when nothing is lost |
| DropTrace.NothingLost | crates/gruel-compiler/src/drop_glue.rs:254-287 | types without arrays of droppable enums or vectors lose nothing |
| DropProof.StructGlueRuns | crates/gruel-compiler/src/drop_glue.rs:128-220 | running struct glue calls the destructor, then drops each droppable field once and in order |
| DropProof.ArrayGlueRuns | crates/gruel-compiler/src/drop_glue.rs:226-316 | running array glue drops each struct or array element once and in order |
| Abi.WordCount | crates/gruel-air/src/intern_pool.rs:1776-1797 | any value of a type is passed in as many words as the type has slots: one per eight bytes of a leaf, one for an enum, the parts in order for a struct or array |
| Abi.ElementWords | crates/gruel-compiler/src/drop_glue.rs:241-251 | the words of element `i` of an array are those from slot `i` times the element's count on |
| Abi.WordsInjective | crates/gruel-air/src/intern_pool.rs:1776-1797 | two values of one type passed in the same words are equal |
| DropProof.ArrayParameters | crates/gruel-compiler/src/drop_glue.rs:241-262 | the glue's parameter for element `i` is the place of that element's first word |
| DropProof.EnumGlueRuns | crates/gruel-compiler/src/drop_glue.rs:324-447 | running enum glue calls the destructor, then drops the fields of the active variant only |
| DropProof.DroppingFollowsTrace | crates/gruel-compiler/src/drop_glue.rs:69-447 | in a program with every glue function, dropping a value of any type does exactly its glue trace |
| DropSynthesis.BlockOrValue | crates/gruel-compiler/src/drop_glue.rs:40-56 | wraps statements in a block, or passes the value through |
| DropSynthesis.CreateStructGlue | crates/gruel-compiler/src/drop_glue.rs:128-220 | the builder emits the struct glue under its name and declares as many slots as any value has words |
| DropSynthesis.CreateArrayGlue | crates/gruel-compiler/src/drop_glue.rs:226-316 | the builder emits the array glue under the name drops call, declares as many slots as any value has words, and numbers its parameters by the first words of the elements |
| DropSynthesis.CreateEnumGlue | crates/gruel-compiler/src/drop_glue.rs:324-447 | the builder emits the enum glue under its name and declares the one slot of any value |
| DropSynthesis.SynthesizeDropGlue | crates/gruel-compiler/src/drop_glue.rs:69-120 | exactly one function, with the right name and body, for every type that needs one, in any map order |
| DropSynthesis.SynthesisIsClosed | crates/gruel-compiler/src/drop_glue.rs:69-120 | every drop function that the synthesized ones call was synthesized |
| DropNaming.NamesDistinctExactly | crates/gruel-cfg/src/drop_names.rs:57-89 | drop names are distinct exactly when no two droppable definitions share a name, none is called like a droppable array, and no two droppable arrays of one length have equal element components |
| DropNaming.ComponentInjective | crates/gruel-cfg/src/drop_names.rs:93-167 | with definition names that are distinct and imitate no component, distinct types have distinct components |
| DropNaming.PlainNamesDistinct | crates/gruel-cfg/src/drop_names.rs:57-89 | with such names every drop function has a name of its own |
| DropNaming.UnreadablePointerExample | crates/gruel-cfg/src/drop_names.rs:137-140 | a pool with a pointer to `c_void` has all its drop names |
| DropSynthesis.DistinctNamesLink | crates/gruel-compiler/src/drop_glue.rs:69-120 | with distinct drop names the functions link without loss |
| DropSynthesis.DropsCompletelyExactly | crates/gruel-compiler/src/drop_glue.rs:69-447 | running the linked functions gives a value's recursive drop trace exactly when nothing droppable sits in an array of enums or vectors |
| DropSynthesis.SynthesizedDropsExactly | crates/gruel-compiler/src/drop_glue.rs:69-447 | the same from a consistent pool whose definition names are distinct and imitate no component |
| DropSynthesis.TypeDropsExactly | crates/gruel-compiler/src/drop_glue.rs:69-447 | every value of a type is dropped completely exactly when no non-empty skipped array with something to drop is reachable by value |
| DropLoss.LossExact | crates/gruel-compiler/src/drop_glue.rs:250-288 | a type has a value that loses events exactly when such an array is reachable through variants that can occur |
| DropSynthesis.VecArrayExample | crates/gruel-compiler/src/drop_glue.rs:285-286 | `[Vec(i32); 1]` needs dropping and its glue drops nothing |
| DropNaming.CollisionExample | crates/gruel-cfg/src/drop_names.rs:57-89 | a struct `array_S_3` and the array `[S; 3]` share a drop function name |
| Ast.ComposeItems | crates/gruel-cache/src/remap.rs:136-140 | substituting every name of a tree twice, bodies included, is substituting once |
| Renaming.KeepItems | crates/gruel-cache/src/remap.rs:136-140 | replacing every name by itself gives the same file, bodies and patterns included |
| Renaming.UndoItems | crates/gruel-cache/src/remap.rs:136-140 | a substitution that can be undone on names can be undone on files |
| Renaming.ItemsInjective | crates/gruel-cache/src/remap.rs:136-140 | a substitution that keeps names apart keeps files apart |
| Signature.TypeInjective | crates/gruel-cache/src/signature.rs:360-428 | a type's bytes determine it, up to what they leave out, and where it ends, at any nesting |
| Signature.MethodInjective | crates/gruel-cache/src/signature.rs:516-542 | so for methods |
| Signature.EncEditType | crates/gruel-cache/src/signature.rs:360-428 | changing bodies or visibility marks inside a type changes no byte |
| FileSignature.SortSorts | crates/gruel-cache/src/signature.rs:116-116 | sorting gives an ordered permutation |
| PublicOrder.SortStable | crates/gruel-cache/src/signature.rs:116-116 | entries of one name keep their order |
| PublicOrder.LexExact | crates/gruel-cache/src/signature.rs:116-116 | names are ordered as byte strings: a prefix first, else by the first difference |
| PublicOrder.MarksDecide | crates/gruel-cache/src/signature.rs:82-128 | functions, structs, enums and constants are public by their mark, interfaces and derives always, extern blocks and error nodes never |
| PublicOrder.FieldKept | crates/gruel-cache/src/signature.rs:220-220 | a field is kept, in its place, exactly when it is marked public |
| PublicOrder.MethodKept | crates/gruel-cache/src/signature.rs:227-227 | so for methods |
| PublicOrder.ItemKept | crates/gruel-cache/src/signature.rs:80-115 | an item is kept, in its place, exactly when it is public |
| PublicOrder.PublicFieldSeen | crates/gruel-cache/src/signature.rs:203-232 | adding a public field changes the interface |
| PublicOrder.EmptyStream | crates/gruel-cache/src/signature.rs:73-80 | the twelve bytes of an empty file |
| PublicOrder.ModeBytes | crates/gruel-cache/src/signature.rs:336-342 | parameter modes are written 0 and 3, receivers 0, 1 and 2 |
| FileSignature.ItemInjective | crates/gruel-cache/src/signature.rs:138-320 | an item's bytes determine its public interface and where it ends |
| FileSignature.SignatureExact | crates/gruel-cache/src/signature.rs:73-124 | two files have the same stream exactly when they have the same public interface |
| FileSignature.OrderIsIrrelevant | crates/gruel-cache/src/signature.rs:77-116 | permuting distinctly named public items, with any private or body edits, changes no byte |
| FileSignature.AlikeSameStream | crates/gruel-cache/src/signature.rs:73-124 | edits that keep every public item's interface change no byte, even if names repeat |
| FileSignature.PrivateItemInvisible | crates/gruel-cache/src/signature.rs:111-114 | adding or removing a private item anywhere changes no byte |
| FileSignature.BodiesInvisible | crates/gruel-cache/src/signature.rs:184-201 | replacing bodies and initializers, at any depth, changes no byte |
| FileSignature.PrivateMembersInvisible | crates/gruel-cache/src/signature.rs:203-232 | changing private fields and methods of a struct changes no byte |
| SignatureHasher.EncodeType | crates/gruel-cache/src/signature.rs:360-428 | the running encoder feeds exactly the type's bytes |
| SignatureHasher.EncodeItem | crates/gruel-cache/src/signature.rs:138-149 | the running encoder feeds exactly the item's bytes |
| SignatureHasher.ComputeSigFp | crates/gruel-cache/src/signature.rs:73-124 | the hasher receives exactly the stream of the file with its symbols resolved |
| SignatureHasher.Hasher.UpdateStr | crates/gruel-cache/src/fingerprint.rs:57-61 | a string goes in length first |
| Wire.Interner.GetOrIntern | crates/gruel-cache/src/wire.rs:68-73 | the interner stays injective and old keys keep their strings |
| Wire.RestoreInto | crates/gruel-cache/src/wire.rs:68-73 | the table leads each cached key to a key of the same string |
| Wire.RemapKeepsNames | crates/gruel-cache/src/remap.rs:44-55 | every name in a remapped tree reads as it did when the file was cached |
| Wire.RemapBack | crates/gruel-cache/src/remap.rs:44-55 | remapping by a table and mapping back gives the original tree |
| Wire.RemapInjective | crates/gruel-cache/src/remap.rs:44-55 | no two trees are remapped to the same one |
| Wire.LoadCached | crates/gruel-cache/src/wire.rs:38-73 | a cached file loaded into any interner reads as it was cached, has the same signature stream, and mapped back is the cached tree |
| Wire.LoadAll | crates/gruel-cache/src/wire.rs:68-73 | after loading any list of cached files into one interner all of them still read as they were cached |
| TypeSyntax.ParseArrayTypeSyntax | crates/gruel-air/src/types.rs:1768-1796 | the scan computes the array splitter, errors included |
| TypeSyntax.TrimExact | crates/gruel-air/src/types.rs:1768-1796 | trimming cuts white space off both ends, all of it and nothing else |
| TypeSyntax.ParseU64Exact | crates/gruel-air/src/types.rs:1793-1793 | exactly the digit strings below 2^64, with or without a plus sign, are lengths |
| TypeSyntax.ArrayRoundTrip | crates/gruel-air/src/types.rs:1768-1796 | the element name and length of a printed array come back exactly |
| TypeSyntax.ParseTypeCallSyntax | crates/gruel-air/src/types.rs:1719-1762 | the scan computes the type-call splitter, errors included |
| TypeSyntax.CallRoundTrip | crates/gruel-air/src/types.rs:1719-1762 | the callee and every argument of a printed type call come back exactly |
| TypeSyntax.ParseTupleTypeSyntax | crates/gruel-air/src/types.rs:1809-1852 | the scan computes the tuple splitter, errors included |
| TypeSyntax.TupleDisplayName | crates/gruel-air/src/types.rs:647-666 | the display loop prints the tuple, for tuple-shaped structs only |
| TypeSyntax.TupleRoundTrip | crates/gruel-air/src/types.rs:1809-1852 | the elements of a printed tuple come back exactly, at any arity from one up |
| TypeNames.NameClean | crates/gruel-air/src/intern_pool.rs:1807-1885 | every printed name nests properly and can stand as a component |
| TypeNames.DisplayClean | crates/gruel-air/src/types.rs:647-666 | tuple display names nest properly too |
| TypeNames.ArrayNameParses | crates/gruel-air/src/intern_pool.rs:1846-1849 | parsing a printed array type gives its element's printed name and its length |
| TypeNames.WrapperNameParses | crates/gruel-air/src/intern_pool.rs:1850-1877 | parsing a printed pointer, reference, slice or vector gives the constructor and the target's printed name |
| TypeNames.TupleNameParses | crates/gruel-air/src/types.rs:647-666 | a tuple of pool types and of other tuples, to any depth, parses into the display names of its elements |
| Scope.ScopedContext.PushScope | crates/gruel-air/src/scope.rs:62-65 | opens an empty frame |
| Scope.ScopedContext.InsertLocal | crates/gruel-air/src/scope.rs:95-101 | binds and records what was there before |
| Scope.ScopedContext.PopScope | crates/gruel-air/src/scope.rs:74-90 | replays the frame's entries first to last |
| Scope.ScopeResult | crates/gruel-air/src/scope.rs:62-101 | after any scope a touched symbol has the binding from just before its last insert in that frame |
| Scope.CleanScopeIsNeutral | crates/gruel-air/src/scope.rs:62-101 | a scope in which no symbol is inserted twice in one frame restores exactly the bindings at its push |
| Scope.ScopeRestoresExactly | crates/gruel-air/src/scope.rs:74-90 | any scope restores exactly when every value it leaks, its inner scopes' leaks included, is the binding the symbol started with |
| Scope.RebindingExample | crates/gruel-air/src/scope.rs:76-85 | two inserts of one symbol leave the first behind |
| Scope.InnerLeakExample | crates/gruel-air/src/scope.rs:74-90 | a scope that binds nothing is not restored when an inner one leaks |
| Merge.FunctionAnalysisState.AddString | crates/gruel-air/src/analysis_state.rs:60-71 | returns an index that resolves to the string, without duplicates |
| Merge.MergedAnalysisState.MergeFunctionState | crates/gruel-air/src/analysis_state.rs:115-152 | in any table order the function's remapped ids resolve to its literals; old ids stay |
| Merge.MergeAll | crates/gruel-air/src/analysis_state.rs:115-187 | after any list of merges every function's ids resolve, and the merged table holds exactly the union without duplicates |
| Merge.IndexedHasNoDuplicates | crates/gruel-air/src/analysis_state.rs:88-98 | a table in step with its map repeats no string |
| Merge.RemapLiterals | crates/gruel-air/src/inst.rs:940-962 | every literal of a body means in the merged tables what it meant before, and nothing else changes |

## Left out

- `Sema`, type inference, `create_specialized`, `check_conforms`, the CFG builder and LLVM code generation: synthesized bodies are an arbitrary function from key to body or error.
- Hash functions, serialization formats and the interner's internals: the fingerprint is the byte stream, the interner an injective table.
- `InternerSnapshot::capture` is the list of strings in key order; its collecting and sorting is not modelled.
- Ast.ComposeItems: is a law of the substitution on trees, because the walkers overwrite symbols in place and update in place is not captured; the walker over `Rir` is a stub in the source.
- Expressions and patterns are a representative part of the syntax; directives, doc comments, spans, ownership marks and the visibility of variant fields, none of which reach the stream, are not represented.
- AIR instructions outside the list in `Air.InstData` (places, intrinsics, slices, spawns, casts); operators, literals and outside functions have any meaning at all. A reference is evaluated each time it is used, and pattern bindings do not store into slots.
- `Drop` of a zero-sized value and the passing of zero-slot parameters are lowering details below AIR; the body of a user destructor is an outside call that records one event.
- Runtime destructors of builtin structs, glue bodies of 2^32 instructions and more, and user destructors named like drop functions are excluded by `Linkable`.
- Composite comptime values are mangled by their debug text and are outside the mangling results; a collision of mangled names, whose exact form `Mangling.MangleCollidesExactly` gives, is excluded from `SpecializeMeaning.SpecializationPreservesMeaning`.
- A pool that holds an array of `char` or of a C type is outside `WellFormed`: every layout or drop query that reaches its element panics. Targets of pointers, references, slices and vectors are read only when a name is formed, and only there must they be readable.
- The ten lookup maps of the pool have disjoint keys and are kept as one; lock poisoning and memory ordering are not modelled.
- 32-bit counters of literals, pool indices and ABI slots are unbounded numbers, except where a cast decides the result (layout offsets, pattern words, block and arm references).
- SignatureHasher.Resolve: a symbol outside the interner, on which the source panics, resolves to the empty string.
- The table of alphanumeric characters is a parameter of the type-call parser.
- Linearity and thread-safety queries, `ParamArena`, `ModuleRegistry`, warnings' contents, the file store and linking: easier repeats or plumbing.
