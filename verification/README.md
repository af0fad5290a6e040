# A verified model of FEX's thunk generator, signal guards and build scripts

FEX runs x86 programs on ARM hosts. For selected libraries it forwards calls from guest code to the host's
own library through *thunks*, which a generator emits from annotated C declarations. This project models that
generator as a compiler with a meaning, and proves that the code it emits preserves it. It also models the
guard that masks signals while a mutex is held, as a concurrent protocol, and four build and test scripts
whose output something else relies on.

Every statement is about all inputs, all runs or all reachable states. Loops and objects that change in
place are methods and classes, proved against functions; the laws are lemmas about those functions.

## The thunk generator

| modules | subject |
|---|---|
| `CTypes`, `SameTypes`, `Declarators`, `DeclarationPrinting`, `DeclarationText`, `DeclarationLexer` | C types, their declarations, a lexer and a parser for declarations (sections 6.7.6 and 6.7.7 of ISO C11), and `format_decl` |
| `Generator`, `GeneratorInvariant`, `GeneratorAcceptance`, `GeneratorVisitor`, `DeclaredAnnotations`, `RecordedDeclarations` | the visitor as a state machine, and as the object whose fields it extends; what it accepts and records, said of the declarations |
| `Emission`, `EmissionLoops`, `DigestText` | the emitted files as data, the loops that print them, the two spellings of a digest |
| `StructLayout`, `ThunkRuntime`, `CallMeaning` | what the emitted code does when it runs; what a call means, said without structs, names or digests |
| `ThunkStructs`, `EmittedNames`, `PackedArguments`, `Compilation`, `MeaningPreservation`, `CallbackProtocol`, `LinkClosure` | the proof that these two agree, and exactly when the emitted code compiles |
| `IndirectCalls`, `Registration`, `GLProcAddress` | symbol lists, calls of host pointers, and `glXGetProcAddress` |

The emitted code is run by what is printed alone: declarations are parsed back, struct fields, packers,
unpackers, stubs and loader pointers are looked up by name, and the unpacker by the digest text. Code that the
compiler of either side rejects does not run at all. The central result is `LinkClosure.PublicCallIsHostCall`.
It rests on `MeaningPreservation.CallPreserved`, and that on each of the laws about declarations, layout,
digests and names, and on `Compilation.CompilesExactly`.

## What the code does not do

These are properties that fail in the code as it is. Each has a concrete instance and the exact condition
under which the code is right.

- `format_decl` finds only `(*)`. A constant function pointer and a pointer to a function pointer come out as
  text that does not declare the name (`DeclarationPrinting.FormatDeclFailures`; exact condition
  `FormatDeclCorrect`, for the text `DeclarationLexer.FormatTextCorrect`).
- The qualifier of a result type is not removed, so for `const int f()` the struct member for the result can be
  neither left uninitialised nor assigned to, and the library does not compile
  (`MeaningPreservation.ConstResultBroken`). The same holds for types that `format_decl` cannot declare, for stubs
  of callbacks that return function pointers, and for variadic functions without a fixed parameter, after which
  `(, ...)` is printed (exact condition `Compilation.CompilesExactly`).
- Every registered function type is printed into an instance of a template on the host. Types with an ellipsis, a
  constant result or too many parameters have no such instance, and one of them keeps the whole library from
  compiling, for example a variadic function in a namespace with indirect calls
  (`Registration.VariadicIndirectBroken`, `UncallableTypes`; exact condition `PackedArguments.CallableExactly`,
  part of `CompilesExactly`). A callback with 23 parameters has one on the host, but none on the guest
  (`PackedArguments.TwentyThreeParameters`; exact condition `UnpackExactly`).
- The variadic arguments of a function may themselves be functions. They have no callback entry, and their guest
  addresses reach host code as they are (`CallbackProtocol.VariadicFunctionsPassedRaw`; exact condition
  `ParametersFollowProtocol`).
- A null callback that host code is to call becomes a null trampoline, which the host side dereferences
  (`CallbackProtocol.CallExplained`: it crashes if and only if there is such a null).
- The first symbol list also takes the symbols of all namespaces without a symbol table, so a pointer of its
  list may have no invoker (`IndirectCalls.FirstListNotCallable`; exact condition `ListsCallable`, in terms of the
  declarations `Registration.ListsCallableByDeclarations`).
- A host pointer shared by two names keeps the invoker of the name asked for first
  (`GLProcAddress.SharedPointerMislinked`; exact condition `LinkedByNameExactly`).
- Destroying guard objects in the reverse order of their construction is not enough once guards are moved: a
  handler can start while another guard of the thread holds its mutex
  (`SignalConservation.ReverseConstructionFails`; exact condition `MayDestroyExactly`).
- `parse_hexstring` looks for the prefix `0x` in the whole string only, and then cuts two characters off
  every number (`HexStrings.MixedPrefixesLoseDigits`; exact condition `ParseHexExactly`).
- An environment string with a NUL does not come back from the configuration file (`TestConfig.EnvBack`, an
  equivalence).
- A syscall name that is twice in one table and missing from another still passes the count of the common
  enum, and one that is in every table and twice in one does not (`SyscallEnums.RepeatedNameMisleads`; exact
  condition `CommonEnumExact`).
- A struct that is declared again behind its definition, as in `struct foo;`, loses its recorded members
  (`StructDeclarations.ForwardDeclarationErases`; exact condition `DefinitionStaysExactly`).
- The changelog prints lines without a category under `Misc`, which is also a category a line can name
  (`ChangelogReport.LiteralMiscMisfiles` and `MiscComesBack`; exact conditions `ReportReadsBack` and
  `HeadingsOnce`).

## Model

| member | source | states |
|---|---|---|
| DeclarationPrinting.SignatureParses | ThunkLibs/Generator/gen.cpp:425-427 | the printed type parses, by the C grammar, as an unnamed declaration of exactly that type, at any nesting depth |
| DeclarationPrinting.FormatDeclCorrect | ThunkLibs/Generator/gen.cpp:425-440 | the printed declaration parses as that of the given name with the given type if and only if the type is no constant function pointer and no pointer to a function pointer or the like; otherwise it declares no name |
| DeclarationPrinting.FormatDeclFailures | ThunkLibs/Generator/gen.cpp:428-439 | two types for which the printed text declares nothing |
| DeclarationText.SearchRefines | ThunkLibs/Generator/gen.cpp:430-436 | the text search for `(*)` and the insertion in the text find and give exactly what the search over tokens does |
| DeclarationText.FormatTextRefines | ThunkLibs/Generator/gen.cpp:425-440 | the text-level printer prints the tokens that the correctness theorem is about, for all types whose names contain no parenthesis or star |
| DeclarationLexer.FormatTextCorrect | ThunkLibs/Generator/gen.cpp:425-440 | the printed text, read by a lexer that knows the type names in scope and takes the longest one, and then parsed, declares the name with the type if and only if the type is declarable |
| DeclarationPrinting.FormatDeclParses | ThunkLibs/Generator/gen.cpp:450-459 | where no name is needed, the printed text is a declaration if and only if the type is declarable or is a function pointer with `(*)` in its text |
| DigestText.GuestDigestParses | ThunkLibs/Generator/gen.cpp:480-488 | an assembler that reads the operand list gets back every digest |
| DigestText.HostDigestParses | ThunkLibs/Generator/gen.cpp:674-678 | the C string literal, whose hexadecimal escapes are read greedily, denotes the bytes of the digest |
| DigestText.PrintThunkDigest | ThunkLibs/Generator/gen.cpp:480-488 | the loop with a separator before all bytes but the first prints the list |
| DigestText.PrintCallbackDigest | ThunkLibs/Generator/gen.cpp:495-502 | the loop with a separator behind every byte, and two characters taken off, prints the same list |
| DigestText.PrintTableDigest | ThunkLibs/Generator/gen.cpp:674-693 | the loop prints the literal |
| GeneratorInvariant.StepKeeps | ThunkLibs/Generator/gen.cpp:230-387 | one visit keeps the invariant, also when it reports an error, and loses nothing recorded |
| GeneratorInvariant.RunKeeps | ThunkLibs/Generator/gen.cpp:259-387 | in every state of every run thunks and API functions correspond index by index: names, parameters, variadic rules, at most one callback, registered signatures; after an error the API list is at most one entry longer |
| GeneratorAcceptance.AcceptedExactly | ThunkLibs/Generator/gen.cpp:259-387 | a function is accepted if and only if its annotations and signature satisfy a stated list of rules |
| DeclaredAnnotations.AnnotationsExactly | ThunkLibs/Generator/gen.cpp:179-213 | the annotations are read if and only if every base is one of the five names and every member is allowed; each flag is set by its own base, the strategy is that of the last callback base, and the variadic type that of the last type member |
| DeclaredAnnotations.NamespaceAnnotationsExactly | ThunkLibs/Generator/gen.cpp:134-177 | the same for a namespace: two bases, the last loader and the last version |
| RecordedDeclarations.ConfigAcceptedExactly | ThunkLibs/Generator/gen.cpp:259-387 | acceptance of a function in terms of its bases, members and signature alone |
| RecordedDeclarations.TemplateAcceptedExactly | ThunkLibs/Generator/gen.cpp:230-254 | acceptance of a namespace in terms of its template alone |
| RecordedDeclarations.RunRecorded | ThunkLibs/Generator/gen.cpp:230-387 | in every run without an error API functions and thunks are the configured functions in order, with names, parameters, loader, symbol table, custom parts and callbacks as declared and annotated; the namespaces and the version are those of the templates |
| RecordedDeclarations.PublicExactly | ThunkLibs/Generator/gen.cpp:511-528 | a name has a public entry point if and only if it is declared, not variadic, and not annotated to have one written by hand |
| SameTypes.SameTypeExactly | ThunkLibs/Generator/gen.cpp:264-270 | two types have one canonical type if and only if they are the same behind typedefs, where outermost qualifiers of parameters do not count |
| GeneratorVisitor.ReadAnnotations | ThunkLibs/Generator/gen.cpp:179-213 | the loops over bases and members give the annotations, or the first error |
| GeneratorVisitor.ReadNamespaceAnnotations | ThunkLibs/Generator/gen.cpp:134-177 | the same for a namespace |
| GeneratorVisitor.Visitor.VisitClassTemplateDecl | ThunkLibs/Generator/gen.cpp:230-254 | the object's new fields and result are one step of the state machine |
| GeneratorVisitor.Visitor.ScanFunction | ThunkLibs/Generator/gen.cpp:314-345 | the loop over the parameters records callbacks and function types up to the first error |
| GeneratorVisitor.Visitor.VisitClassTemplateSpecializationDecl | ThunkLibs/Generator/gen.cpp:259-387 | the object's new fields and result are one step of the state machine |
| StructLayout.FieldsDisjoint | ThunkLibs/Generator/gen.cpp:564-575 | under any align-up layout rule two fields never overlap |
| StructLayout.FieldInBounds | ThunkLibs/Generator/gen.cpp:564-575 | every field is aligned and inside the struct |
| EmissionLoops.GuestStruct | ThunkLibs/Generator/gen.cpp:564-575 | the guest pass prints the members that the host pass prints |
| EmissionLoops.FormatStructMembers | ThunkLibs/Generator/gen.cpp:442-448 | one declaration per parameter, unqualified, in order |
| EmissionLoops.HostStruct | ThunkLibs/Generator/gen.cpp:604-617 | the host pass prints the members that the guest pass prints |
| EmissionLoops.EmitPacker | ThunkLibs/Generator/gen.cpp:554-593 | the loops emit the packer that the meaning theorem runs |
| EmissionLoops.EmitUnpacker | ThunkLibs/Generator/gen.cpp:635-664 | the loop, with the four forms of an argument, emits the unpacker that the meaning theorem runs |
| EmissionLoops.EmitStub | ThunkLibs/Generator/gen.cpp:619-633 | the stub of a callback: result type, name and parameter list as they are written |
| EmissionLoops.EmitPointers | ThunkLibs/Generator/gen.cpp:719-729 | the loader pointers with the parameters and the ellipsis of their types |
| EmissionLoops.EmitAliases | ThunkLibs/Generator/gen.cpp:515-528 | the public aliases, for functions without a custom guest entry point |
| EmissionLoops.EmitSymbolList | ThunkLibs/Generator/gen.cpp:733-742 | the symbols of one list, in order |
| EmissionLoops.EmitExports | ThunkLibs/Generator/gen.cpp:672-695 | thunk entries, then callback entries, with the literals of their digests |
| ThunkStructs.StructParses | ThunkLibs/Generator/gen.cpp:564-617 | both printed structs declare the fields of the thunk, in order, with the right types |
| ThunkStructs.WritesPass | ThunkLibs/Generator/gen.cpp:577-587 | after the packer's writes every field holds the passed value, whatever was in memory before |
| ThunkStructs.ArgsReceived | ThunkLibs/Generator/gen.cpp:644-660 | the unpacker's argument expressions evaluate to what the meaning of the call says |
| EmittedNames.CallbackMessagesDiffer | ThunkLibs/Generator/gen.cpp:461-468 | the message of a callback signature is never that of a thunk named by an identifier |
| EmittedNames.ThunkDigestLoaded | External/FEXCore/Source/Interface/HLE/Thunks/Thunks.cpp:297-300 | once the table is loaded, later entries replacing earlier ones, the digest of a thunk leads to its unpacker |
| PackedArguments.CallableExactly | ThunkLibs/include/common/Host.h:125-174 | the assertions and specializations that `ForIndirectCall` needs amount to: a function type without ellipsis, with a result that is not constant, and at most 13 parameters or 23, or at most 18 if it returns nothing |
| PackedArguments.UnpackExactly | ThunkLibs/include/common/PackedArguments.h:104-108 | such a type can be a callback if and only if it does not have 23 parameters |
| Compilation.CompilesExactly | ThunkLibs/Generator/gen.cpp:425-729 | the emitted files compile if and only if the recorded types are printable where they are printed (parameters, results, stubs, loader pointers), all registered function types are callable, and no callback has 23 parameters |
| MeaningPreservation.CallPreserved | ThunkLibs/Generator/gen.cpp:550-696 | running packer, dispatch and unpacker is exactly the meaning of the call, same outcome, same world, same result, if the library is compilable; otherwise no call works |
| MeaningPreservation.CallBroken | ThunkLibs/Generator/gen.cpp:564-693 | no call into a library that is not compilable works |
| MeaningPreservation.ConstResultBroken | ThunkLibs/Generator/gen.cpp:569-575 | an instance: the visitor accepts a function with a constant result, and its code does not compile |
| CallbackProtocol.ParametersFollowProtocol | ThunkLibs/Generator/gen.cpp:318-364 | for every parameter of every thunk: a trampoline is allocated if and only if it is finalised, its signature is registered, guest pointers are wrapped for custom implementations only; and a raw guest function pointer reaches host code if and only if it is the pointer to the variadic arguments and those are functions |
| CallbackProtocol.VariadicFunctionsPassedRaw | ThunkLibs/Generator/gen.cpp:356-364 | an instance that the visitor accepts |
| CallbackProtocol.CallExplained | External/FEXCore/Source/Interface/HLE/Thunks/Thunks.cpp:369-437 | the target is called once with a finalised trampoline that leads to the guest function, all other arguments as passed; it crashes if and only if a callback to be made callable is null |
| CallbackProtocol.SameTrampoline | External/FEXCore/Source/Interface/HLE/Thunks/Thunks.cpp:369-437 | a guest function passed again for the same callback type gets the same trampoline, whatever was requested and completed in between |
| CallbackProtocol.OwnTrampolines | External/FEXCore/Source/Interface/HLE/Thunks/Thunks.cpp:369-437 | different guest functions, and different types, have different trampolines |
| LinkClosure.AliasesResolve | ThunkLibs/Generator/gen.cpp:515-528 | every public alias names an emitted packer with the same parameters, also after an error |
| LinkClosure.ThunksResolve | ThunkLibs/Generator/gen.cpp:636-680 | thunk symbols, exported unpackers and stubs that are used are emitted |
| LinkClosure.PointersResolve | ThunkLibs/Generator/gen.cpp:712-727 | the loader pointer of an unpacker without custom implementation is declared, and assigned from the symbol of its own name |
| LinkClosure.PackerCallIsHostCall | ThunkLibs/Generator/gen.cpp:550-696 | calling a packer of a library that compiles calls its target exactly once, ready, and returns its result, or crashes exactly on a null callback |
| LinkClosure.PublicCallIsHostCall | ThunkLibs/Generator/gen.cpp:511-696 | the same for every public function in every state of every run of the generator; no call works exactly when the library is not compilable |
| LinkClosure.PremisesCanBeMet | ThunkLibs/Generator/gen.cpp:259-387 | for every library name and every host there is a run, a machine and a call with a live callback that meet all premises of the theorem before |
| IndirectCalls.ListsPartition | ThunkLibs/Generator/gen.cpp:733-742 | the symbol lists together hold every API function exactly as often as the API does |
| IndirectCalls.ListsCallable | ThunkLibs/Generator/gen.cpp:352-379 | guest code can call pointers of every symbol in the list of a namespace with symbol table and indirect calls if and only if their types are callable, and, for the first list, the symbols without table have theirs registered |
| Registration.RegisteredExactly | ThunkLibs/Generator/gen.cpp:259-379 | in every run without an error a function type is registered if and only if a declaration asks for it: a listed type, a callback that host code calls, or a function of a namespace with indirect calls |
| Registration.ListsCallableByDeclarations | ThunkLibs/Generator/gen.cpp:352-379 | the same condition, said of the visited declarations alone |
| Registration.UncallableBroken | ThunkLibs/Generator/gen.cpp:683-693 | in every run, one declaration that registers a type that is not callable breaks every call into its library |
| Registration.VariadicIndirectBroken | ThunkLibs/Generator/gen.cpp:376-379 | an instance: a variadic function of a namespace with indirect calls |
| IndirectCalls.FirstListNotCallable | ThunkLibs/Generator/gen.cpp:737-739 | a run whose first list fails this |
| IndirectCalls.CallbackReached | ThunkLibs/Generator/gen.cpp:491-507 | a registered function type has a guest thunk whose digest, as printed, leads to the host side of the same signature, which is defined if the files compile |
| GLProcAddress.ProcTable.constructor | ThunkLibs/libGL/libGL_Guest.cpp:36-43 | the map has every listed symbol, with the invoker of its own signature if names are unique |
| GLProcAddress.ProcTable.GetProcAddress | ThunkLibs/libGL/libGL_Guest.cpp:46-73 | a non-null result is the function itself or a host pointer that is linked; exactly when which |
| GLProcAddress.LinkedByNameExactly | ThunkLibs/libGL/libGL_Guest.cpp:72-72 | over any sequence of queries, every pointer is linked to the invoker of the name it was asked for if and only if names that share a pointer share a signature |
| GLProcAddress.SharedPointerMislinked | External/FEXCore/Source/Interface/Core/Core.cpp:1245-1259 | an instance: the first link of an address is kept |
| GLProcAddress.HandedOutPointerReachesHost | ThunkLibs/libGL/libGL_Guest.cpp:36-73 | a pointer handed out for a symbol of a callable list leads, by link and digest, to the host side of that symbol's signature, and both the invoker and the host side are defined |
| SignalGuard.ScopedSignalMask.constructor | FEXHeaderUtils/FEXHeaderUtils/ScopedSignalMask.h:37-44 | the mask is set, the old one kept, the mutex acquired as soon as it is free |
| SignalGuard.ScopedSignalMask.MoveFrom | FEXHeaderUtils/FEXHeaderUtils/ScopedSignalMask.h:51-54 | the new guard takes over; the old one is inert |
| SignalGuard.ScopedSignalMask.Destroy | FEXHeaderUtils/FEXHeaderUtils/ScopedSignalMask.h:56-64 | unlock and restore, or nothing for a guard that was moved from |
| SignalGuard.MakeMoveDestroy | FEXHeaderUtils/FEXHeaderUtils/ScopedSignalMask.h:37-64 | construct, move and destroy both objects: the mask is as before, the mutex as it was acquired |
| SignalSafety.StepKeeps | FEXHeaderUtils/FEXHeaderUtils/ScopedSignalMask.h:37-64 | every disciplined step of any thread, and every signal delivery, keeps masks, guards and owners consistent |
| SignalSafety.RunKeeps | FEXHeaderUtils/FEXHeaderUtils/ScopedSignalMask.h:37-64 | hence in every state of every interleaving |
| SignalSafety.NoHandlerUnderLock | FEXHeaderUtils/FEXHeaderUtils/ScopedSignalMask.h:37-64 | a maskable signal is delivered only to a thread that has no engaged guard |
| SignalConservation.NoHandlerUnderLockEver | FEXHeaderUtils/FEXHeaderUtils/ScopedSignalMask.h:37-64 | in every interleaving a handler starts on a thread that holds no guarded mutex |
| SignalConservation.RunBalances | FEXHeaderUtils/FEXHeaderUtils/ScopedSignalMask.h:51-72 | in every run the exclusive and shared holds of a mutex are exactly its live locked guards, and an exclusive one is alone |
| SignalConservation.MaskComesBack | FEXHeaderUtils/FEXHeaderUtils/ScopedSignalMask.h:51-64 | once a thread has no guard left and the handlers that interrupted it have returned, its mask is what it was before the first guard; while it has one the mask is full |
| SignalConservation.MayDestroyExactly | FEXHeaderUtils/FEXHeaderUtils/ScopedSignalMask.h:56-64 | destroying a guard leaves its thread protected if and only if the guard saved a full mask or is the thread's only one |
| SignalConservation.ReverseAcquisitionObeys | FEXHeaderUtils/FEXHeaderUtils/ScopedSignalMask.h:56-64 | reverse order of acquisition satisfies that rule |
| SignalConservation.ReverseConstructionFails | FEXHeaderUtils/FEXHeaderUtils/ScopedSignalMask.h:51-64 | a run in which reverse order of object construction, with a move, lets a handler start under a held mutex |
| TestConfig.RoundTrip | Scripts/json_config_parse.py:293-364 | a reader that follows the header gets the configuration back exactly if and only if no environment string has a NUL |
| TestConfig.SectionsTile | Scripts/json_config_parse.py:334-362 | the four sections start at byte 76, follow each other without gaps and fill the file |
| TestConfig.EnvBack | Source/Tests/HarnessHelpers.h:180-192 | the environment reads back if and only if it has no NUL |
| TestConfigWriter.WriteConfig | Scripts/json_config_parse.py:293-364 | the writer fails exactly when a number does not fit its field, and otherwise what it writes reads back |
| TestConfigWriter.WriteRegions | Scripts/json_config_parse.py:298-301 | the section of memory regions, or the exception |
| TestConfigWriter.WriteRegisters | Scripts/json_config_parse.py:303-308 | the section of register data, or the exception |
| TestConfigWriter.WriteMemory | Scripts/json_config_parse.py:310-316 | the section of memory data, or the exception |
| TestConfigWriter.WriteEnv | Scripts/json_config_parse.py:318-323 | the section of environment strings |
| HexStrings.ParseHexString | Scripts/json_config_parse.py:148-159 | the nested loops give the bytes of the whole string and their number, or the exception |
| HexStrings.ChunkIsNumber | Scripts/json_config_parse.py:154-158 | a number of d digits gives ceil(d/2) bytes whose little-endian value is the number |
| HexStrings.PairsRead | Scripts/json_config_parse.py:155-156 | the values of the digits, and what two characters are read as: two digits, or one with a sign or a blank |
| HexStrings.ParseHexExactly | Scripts/json_config_parse.py:148-159 | all numbers of the string come out so if and only if the prefixes are uniform |
| HexStrings.MixedPrefixesLoseDigits | Scripts/json_config_parse.py:151-153 | otherwise a number without prefix loses its two leading digits |
| StructHandlers.ArchDB.SetNamespace | Scripts/StructPackVerifier.py:155-158 | the current namespace is the `::` join of the stack |
| StructHandlers.ArchDB.HandleStructDeclCursor | Scripts/StructPackVerifier.py:160-185 | under its name a struct is recorded with the size, members, aliases and mark of its cursor; the namespace stack is as before |
| StructHandlers.ArchDB.HandleUnionDeclCursor | Scripts/StructPackVerifier.py:187-214 | the same for a union |
| StructHandlers.ArchDB.HandleVarDeclCursor | Scripts/StructPackVerifier.py:216-225 | a variable is recorded with the size, aliases and mark of its cursor; parsing has failed exactly if an alias is misspelled or it had before |
| StructHandlers.ArchDB.HandleVarDeclElements | Scripts/StructPackVerifier.py:227-258 | the annotations of a variable are read in order |
| StructHandlers.ArchDB.HandleTypeDefDeclCursor | Scripts/StructPackVerifier.py:261-297 | a typedef visits its own cursor again, and still terminates, with the stack as before |
| StructHandlers.ArchDB.HandleStructElements | Scripts/StructPackVerifier.py:299-377 | the fields and structs among the children become members in order, unions flattened, each with name, size, offset and alignment of its cursor; the aliases are those the annotations spell; the stack is as before |
| AliasAnnotations.AliasesRecognised | Scripts/StructPackVerifier.py:301-320 | an annotation is an alias exactly if it reads prefix, database and name with hyphens between them, and then of that name in that database |
| RecordedLayouts.VariableDescribed | Scripts/StructPackVerifier.py:227-258 | the same for the annotations of variables |
| StructHandlers.ArchDB.HandleTypeDefDecl | Scripts/StructPackVerifier.py:379-395 | structs and typedefs below a typedef are recorded; the stack is as before |
| StructHandlers.ArchDB.HandleCursor | Scripts/StructPackVerifier.py:397-436 | a whole subtree is recorded, for every finite tree; the stack is as before |
| StructDatabase.CursorExtends | Scripts/StructPackVerifier.py:397-436 | a traversal loses nothing recorded, forgets no parse error and files every layout under its name |
| StructDatabase.TranslationUnitRecorded | Scripts/StructPackVerifier.py:160-436 | exactly the structs declared in the tree are recorded, at any depth, inside records, namespaces and typedefs, each under its name |
| StructDeclarations.LastDeclarationStays | Scripts/StructPackVerifier.py:160-185 | for every name size, members and aliases of the declaration visited last are recorded |
| StructDeclarations.DefinitionStaysExactly | Scripts/StructPackVerifier.py:178-178 | the layout of a definition is the one recorded if and only if no declaration of its name is visited behind it, or the last of them has the same layout |
| StructDeclarations.ForwardDeclarationErases | Scripts/StructPackVerifier.py:178-178 | an instance in which it is not |
| StructDatabase.CompareStructs | Scripts/StructPackVerifier.py:485-521 | true if and only if sizes are equal and members agree by position in size, offset and alignment |
| StructDatabase.CompareAliases | Scripts/StructPackVerifier.py:523-568 | passes if and only if every alias of every named struct and variable exists and agrees |
| StructDatabase.CompareCrossArch | Scripts/StructPackVerifier.py:570-587 | passes if and only if every struct marked to match does so on the other architecture |
| StructDatabase.SameLayoutEquivalence | Scripts/StructPackVerifier.py:485-521 | the comparison is reflexive, symmetric and transitive |
| StructDatabase.AliasesReadAlike | Scripts/StructPackVerifier.py:523-568 | when aliases pass, all alias targets of a struct read every recorded member alike from the same bytes |
| SyscallEnums.Tables.ParseArchSyscalls | Scripts/GenerateSyscallNumbers.py:75-116 | one definition for each row that is no comment and not of an ignored ABI, in order, with number, ABI, name and entry from the row's words, three names rewritten; filed by name with all earlier ones; an exception exactly on a row with too few words |
| SyscallEnums.Tables.ParseCommonArchSyscalls | Scripts/GenerateSyscallNumbers.py:118-187 | one definition for each entry of the header, with the number its name was given last; filed by name; an exception exactly on an entry without a number |
| SyscallEnums.ExportSyscallDefines | Scripts/GenerateSyscallNumbers.py:189-220 | the table's own values, MAX, and each name it lacks exactly once |
| SyscallEnums.TableMaxLeast | Scripts/GenerateSyscallNumbers.py:200-200 | MAX is the least power of two above the number of definitions |
| SyscallEnums.ExportCommon | Scripts/GenerateSyscallNumbers.py:222-249 | the loop over the last table exports the definitions that pass count and number |
| SyscallEnums.Generate | Scripts/GenerateSyscallNumbers.py:261-280 | from the sources to the enums: every value has the name and number of its row or entry, the common values are those all three tables have, unless a count misleads, and the common MAX is the largest |
| SyscallEnums.ExportedExactly | Scripts/GenerateSyscallNumbers.py:226-249 | for all tables: count and number check pass exactly when all three tables have the name with the number, if and only if the count of definitions does not mislead |
| SyscallEnums.UniqueNamesNeverMislead | Scripts/GenerateSyscallNumbers.py:232-234 | with unique names the count never misleads |
| SyscallEnums.CommonEnumExact | Scripts/GenerateSyscallNumbers.py:222-249 | the common enum has a value exactly when all three tables do, if and only if the count does not mislead |
| SyscallEnums.RepeatedNameMisleads | Scripts/GenerateSyscallNumbers.py:232-243 | an instance with three tables that have entries: a name that one repeats and one lacks is exported |
| Changelog.ClassifyExactly | Scripts/changelog_generator.py:14-29 | a line of the form category, slash, tag, colon, text is filed under both with the stripped text; one of the form category, colon, text under the category; any other whole, as `_Misc` |
| Changelog.TrimStrips | Scripts/changelog_generator.py:21-29 | stripping takes off exactly the blanks around a text |
| Changelog.Group | Scripts/changelog_generator.py:13-29 | each key's messages in order of the lines, no other keys, all lines filed as their form says |
| Changelog.PrintItem | Scripts/changelog_generator.py:36-56 | the lines and the new category and tag of one item |
| Changelog.PrintReport | Scripts/changelog_generator.py:33-56 | the loop prints the report of all items |
| ChangelogReport.CategoryIsContiguous | Scripts/changelog_generator.py:35-46 | a key between two of a category belongs to it, since `/` sorts before letters and digits; the one exception is the literal category `Misc` and the lines without a category |
| ChangelogReport.HeadingsOnce | Scripts/changelog_generator.py:41-46 | every category heading is printed once if and only if no other category comes between the literal category `Misc` and the lines without a category |
| ChangelogReport.MiscComesBack | Scripts/changelog_generator.py:36-37 | an instance in which one does |
| ChangelogReport.ReportReadsBack | Scripts/changelog_generator.py:35-56 | the printed report parses back to the sorted groups if and only if no change has the bare category `Misc` and lines without a category do not directly follow a tag of `Misc` |
| ChangelogReport.EveryLineOnce | Scripts/changelog_generator.py:13-56 | the report holds the stripped text of every line exactly once and nothing else, and under the same condition each under the category and tag of its line |
| ChangelogReport.EveryChangelogReported | Scripts/changelog_generator.py:13-56 | any lines have groups with a sorted list of items, and its report holds every line's text once |
| ChangelogReport.LiteralMiscMisfiles | Scripts/changelog_generator.py:36-37 | an instance: a line without a category reads back under a tag of the literal category `Misc` |

## Left out

- Clang, OpenSSL and file streams: the syntax tree is an input, SHA-256 (section 6.2 of FIPS 180-4) an arbitrary function that gives 32 bytes and does not collide on the messages of one library, the emitted files are data.
- The type grammar has named types, pointers and functions; arrays and other declarators are not in it, nor are qualifiers other than `const`.
- Named types are taken to be complete types whose values can be default-initialised, copied and assigned; a C type has no parameter of type void or of a function type.
- Whether names collide: thunk and function names are taken to be unique, and hand-written implementations to exist.
- A `load_host_endpoint_via` member without an initialiser is read as absent.
- The set of function types is a sequence without duplicates in order of insertion; the program's order is that of a hash set.
- C leaves the order of evaluation of call arguments open; at most one of them has an effect here, so the model evaluates them from left to right.
- Trampoline memory is a bump pointer without the chunks it is mapped in; calls are stated for an address space that is not exhausted.
- What the instantiated templates do when they run, that is how arguments are packed when a trampoline or an indirect call is invoked; whether they compile is modelled. The numbering of `MAKE_CALLBACK_THUNK`, the version suffix of the loaded library, and the text around the symbol lists.
- Guards with a custom mask that is not full: the no-handler claim is for the default mask.
- JSON parsing and the folding of options into numbers; the environment is given as bytes, after UTF-8 encoding.
- `int` on digits other than ASCII.
- An alias annotation with too few sections raises an exception in the script and is recorded as a parse error here; invalid cursors and the log output are not modelled.
- StructDatabase.AliasesReadAlike: speaks of recorded members; those of a union inside a struct are recorded with offsets relative to the union, and read as such.
- The text of the header that `ParseCommonArchSyscalls` reads is given as its defines and entries, and the enums as data; the floating-point logarithm is taken as exact.
- Python's `sorted` is given by its result, the items with strictly increasing keys.
- The changelog's lines are given without their line ends, and its first line with the release name is not part of the report.
- Config.cpp, ArgumentLoader.cpp, StringUtil.cpp, FEXServerClient.cpp, FDUtils.h, FileFormatCheck.cpp and Syscalls.h: calls into libraries, sockets and files.
- InstallFEX.py, CI_FetchRootFS.py, Threaded_Lockstep_Runner.py, DefinitionExtract.py and doc_outline_generator.py: package tools, processes, and simpler twins of what is modelled.
- The interface lists and the other guest and host files of ThunkLibs: declarations and includes.
