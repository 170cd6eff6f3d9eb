# NStrip assembly stripper, modelled in Dafny

NStrip rewrites a .NET assembly so it can serve as a reference assembly. It does two
things with the assembly graph that Mono.Cecil has loaded into memory:

- **Stripping** (`StripAssembly`). Every type of the main module is enumerated,
  breadth first. In every type that is neither an enum nor an interface, every
  method with a managed body gets a stand-in body. Which one is chosen by one of five
  policies (`StripType`): `ThrowNull`, `ValueRet`, `OnlyRet`, `EmptyBody`, `Extern`.
  Afterwards the module's embedded resources are cleared unless they are to be kept.
- **Promotion** (`MakePublic`). Every enumerated type that passes two filters becomes
  public, or nested-public when it is nested. One filter is a name blacklist. The
  other skips types with the CompilerGenerated attribute unless compiler-generated
  code is included. The type's methods and fields that pass the member filters become
  public too. A promoted field that was not public and carries no
  `UnityEngine.SerializeField` may also be marked not-serialized, with a
  `System.NonSerializedAttribute` appended. Its init-only flag may be removed.

The model has four modules, one per concern of `NStrip/AssemblyStripper.cs`:

- `metadata.dfy` (`Metadata`) holds the object graph. `TypeDef`, `MethodDef`,
  `FieldDef`, `ModuleDef` and `AssemblyDef` are classes. Their structure is constant:
  names, member lists, nested types, events, and the attributes of types and methods.
  What the stripper changes is held in mutable fields: visibility and access masks,
  bodies, and the runtime, IL, inlining, not-serialized and init-only flags. A field's
  attribute list is mutable as well. Nesting is acyclic by a proof-only height.
- `type_enumeration.dfy` (`TypeEnumeration`) holds the queue loop of
  `GetAllTypeDefinitions`. It is proved against `BreadthFirst`, the order in which a
  FIFO queue yields a forest. That order is then related to `Flatten`, the forest's
  depth-first listing: the same types, the same number of times, each parent before
  its nested types, and level by level.
- `body_stripping.dfy` (`BodyStripping`) holds `ClearMethodBodies` and
  `StripAssembly`. Both are proved against `Strip`, the effect of one policy on one
  method, which installs the instructions of `StubInstructions`. The stand-in bodies
  are also run by a small evaluator (`Run`) to state what each one does.
- `promotion.dfy` (`Promotion`) holds `MakePublic` and its filters. The type loop, the
  method loop and the field loop are methods proved against functions of the state
  before promotion (`TypeSelected`, `MemberSelected`, `FieldSelected`,
  `PromoteField`). A member that is met twice, through two types that both list it,
  ends as if it had been met once, because visiting a promoted member again changes
  nothing.

Two behaviours of the code worth stating:

- Compiler-controlled methods and fields are filtered out only when
  `includeCompilerGenerated` is false (`NStrip/AssemblyStripper.cs:140-141`,
  `:146-147`). With it set, every method of a selected type passes the member filter,
  and so does every field except, when `excludeCgEvents` is also set, a field named
  like one of its type's events (`:149-153`).
- The NonSerialized constructor reference is built whenever `unityNonSerialized` is
  set, whether or not an `mscorlib` reference exists (`NStrip/AssemblyStripper.cs:116-125`).
  There is no branch that falls back to leaving fields unmarked.

## Model

| member | source | states |
|---|---|---|
| TypeEnumeration.GetAllTypeDefinitions | NStrip/AssemblyStripper.cs:19-32 | the queue loop yields exactly the breadth-first order of the module's top-level types and their nested types |
| TypeEnumeration.BreadthFirstPermutesForest | NStrip/AssemblyStripper.cs:21-30 | the enumeration yields each type exactly as often as it occurs in the nesting forest |
| TypeEnumeration.EnumerationYieldsEachTypeOnce | NStrip/AssemblyStripper.cs:19-32 | in a well-formed module every type, top-level or nested at any depth, is yielded, and none is yielded twice |
| TypeEnumeration.NestedYieldedAfter | NStrip/AssemblyStripper.cs:25-30 | every nested type of a yielded type is yielded at a later position |
| TypeEnumeration.BreadthFirstByLevels | NStrip/AssemblyStripper.cs:21-30 | the top-level types come first, in declaration order, followed by the enumeration of their nested types |
| TypeEnumeration.BreadthFirstStep | NStrip/AssemblyStripper.cs:25-30 | one dequeue yields the head, then the rest of the queue followed by the head's nested types |
| TypeEnumeration.QueuedIsYielded | NStrip/AssemblyStripper.cs:23-30 | a type waiting in the queue is eventually yielded |
| BodyStripping.StripKeepsBodylessMethod | NStrip/AssemblyStripper.cs:38-39 | a method without a managed body is unchanged under every policy |
| BodyStripping.ExternDropsBody | NStrip/AssemblyStripper.cs:41-46 | Extern removes the body, sets runtime, clears IL and keeps the inlining flags |
| BodyStripping.StubForbidsInlining | NStrip/AssemblyStripper.cs:47-85 | every other policy installs a body, clears aggressive inlining, sets no-inlining and keeps the runtime and IL flags |
| BodyStripping.StubShapes | NStrip/AssemblyStripper.cs:52-78 | `StubInstructions` and `Strip` give the exact instruction list of each policy, with ValueRet's three cases: primitive, the module's void reference, anything else |
| BodyStripping.StubBehaviour | NStrip/AssemblyStripper.cs:52-78 | run from an empty stack, ValueRet returns `ValueRetResult`: an int32 zero for a primitive return type, nothing for the module's void reference, null for any other type; ThrowNull throws null, OnlyRet returns nothing, EmptyBody falls off its end |
| BodyStripping.StripIdempotent | NStrip/AssemblyStripper.cs:36-86 | stripping a stripped method again with the same policy changes nothing |
| BodyStripping.ClearMethodBodies | NStrip/AssemblyStripper.cs:34-87 | every listed method ends as one strip of its original state, even when listed twice, and its access is unchanged |
| BodyStripping.StripAssembly | NStrip/AssemblyStripper.cs:89-103 | a method of some non-enum, non-interface type is stripped once, every other method is unchanged, access is unchanged, and resources are emptied exactly when they are not kept |
| Promotion.HasAttribute | NStrip/AssemblyStripper.cs:110-111 | true exactly when some attribute's type has the given full name |
| Promotion.CheckCompilerGeneratedAttribute | NStrip/AssemblyStripper.cs:108-112 | true exactly when some attribute is of type System.Runtime.CompilerServices.CompilerGeneratedAttribute |
| Promotion.PromotionAppendsNonSerialized | NStrip/AssemblyStripper.cs:155-161 | a field promoted while the NonSerialized constructor exists, not public and without SerializeField, ends not-serialized with a System.NonSerializedAttribute appended after its previous attributes |
| Promotion.PromoteFieldRules | NStrip/AssemblyStripper.cs:155-164 | `PromoteField`, the effect of promotion on one field: it ends public; init-only ends cleared exactly when removal is asked for; one NonSerialized attribute is appended and not-serialized set exactly when the constructor exists, the field was not public and it had no SerializeField attribute, and otherwise both are untouched |
| Promotion.PromoteFieldIdempotent | NStrip/AssemblyStripper.cs:155-164 | promoting a promoted field again adds no second attribute and changes nothing |
| Promotion.PromotedFieldStaysSelected | NStrip/AssemblyStripper.cs:146-158 | the attribute appended by promotion never makes the field fail the compiler-generated filter |
| Promotion.CompilerGeneratedMembersSkipped | NStrip/AssemblyStripper.cs:140-147 | with compiler-generated code excluded, a member carrying the marker or with compiler-controlled access is never selected |
| Promotion.TypePromotedInMeans | NStrip/AssemblyStripper.cs:127-138 | after the type loop, a type has been made public exactly when it was enumerated and is neither blacklisted nor an excluded compiler-generated type |
| Promotion.MethodPromotedInMeans | NStrip/AssemblyStripper.cs:127-144 | a method has been promoted exactly when some selected enumerated type declares it and it passes the member filter |
| Promotion.FieldPromotedInMeans | NStrip/AssemblyStripper.cs:127-152 | a field has been promoted exactly when some selected enumerated type declares it and selects it by the field filters |
| Promotion.MethodPromotedInAll | NStrip/AssemblyStripper.cs:127-144 | after the whole type loop a method has been promoted exactly when some selected enumerated type declares it and it passes the member filter, whatever the order of the types |
| Promotion.FieldPromotedInAll | NStrip/AssemblyStripper.cs:127-152 | after the whole type loop a field has been promoted exactly when some selected enumerated type declares it and selects it |
| Promotion.SkippedTypeStep | NStrip/AssemblyStripper.cs:129-133 | a type that fails the type filters promotes no type, method or field |
| Promotion.SkippedTypesKeepMethods | NStrip/AssemblyStripper.cs:129-144 | a method declared only by blacklisted or excluded compiler-generated types is not promoted |
| Promotion.SkippedTypesKeepFields | NStrip/AssemblyStripper.cs:129-147 | a field declared only by blacklisted or excluded compiler-generated types is not promoted |
| Promotion.PromoteMethods | NStrip/AssemblyStripper.cs:140-144 | a method of the type becomes public exactly when it passes the member filter, otherwise keeps its access; bodies are untouched |
| Promotion.VisitedFieldIdempotent | NStrip/AssemblyStripper.cs:146-165 | visiting a field a second time changes nothing |
| Promotion.PromotionKeepsPublic | NStrip/AssemblyStripper.cs:146-161 | a field that was public stays public, and a selected field always ends public |
| Promotion.VisitedFieldUntouched | NStrip/AssemblyStripper.cs:146-164 | an event backing field (when excluded) and a compiler-generated or compiler-controlled field (when excluded) are left entirely unchanged; with init-only removal, every promoted field ends not init-only |
| Promotion.VisitField | NStrip/AssemblyStripper.cs:149-164 | one field ends as `VisitedField` of its state before the visit: unchanged when the field filters reject it, otherwise `PromoteField` of it |
| Promotion.PromoteFields | NStrip/AssemblyStripper.cs:146-165 | every field of the type ends as visited once from its original state, even when listed twice |
| Promotion.SkipType | NStrip/AssemblyStripper.cs:129-133 | skipping a filtered-out type keeps the whole graph in the state promotion has reached |
| Promotion.PromoteType | NStrip/AssemblyStripper.cs:135-165 | visiting a selected type sets its visibility by nesting and advances every type, method and field to the promotion state one type further |
| Promotion.VisitType | NStrip/AssemblyStripper.cs:129-165 | one iteration of the type loop advances the promotion state by one enumerated type |
| Promotion.PromoteTypes | NStrip/AssemblyStripper.cs:127-166 | after the type loop every type, method and field is in the promotion state of the whole enumeration, and no method body changes |
| Promotion.MakePublic | NStrip/AssemblyStripper.cs:105-167 | a type becomes public or nested-public exactly when it passes the type filters; a method becomes public exactly when `MethodPromoted` holds (some selected type declares it and it passes the member filter); a field is promoted by the field rules exactly when `FieldPromoted` holds (some selected type declares and selects it); everything else keeps its state and no body changes |

## Left out

- Loading and writing the assembly, and the command line around these two operations.
  The graph is given, already loaded.
- Mono.Cecil's `MethodBody` and `ILProcessor`. A body is modelled as its list of
  opcodes, and a method without a managed body has none.
- The choice of the highest-version `mscorlib` reference and the construction of the
  `NonSerializedAttribute` type and constructor references
  (`NStrip/AssemblyStripper.cs:118-124`). The constructor is a token naming its
  declaring type, present exactly when `unityNonSerialized` is set.
- What `IsPrimitive`, `IsEnum`, `IsInterface` and `IsNested` mean inside Mono.Cecil.
  They are given flags of each type or type reference. `IsCompilerControlled` is not a
  given flag: it is modelled as the test of the mutable access mask, so a promoted
  member is no longer compiler-controlled.
- Whether a stand-in body is valid IL for its method, for example `OnlyRet` in a
  method that returns a value. The stripper does not check this, and the model does
  not claim it.
- The laziness of the `yield return` enumeration and of the `Where` filters. The
  enumeration is computed into a sequence before the loops that use it, which is
  equivalent because neither loop changes nesting or member lists.
- Modules other than the main module.
- The attributes of types and methods are constant. The stripper never changes them.
