/** The in-memory assembly graph that the stripper works on: the part of the
    Mono.Cecil object model it reads and writes. Structure (names, member lists,
    nesting, attributes of types and methods) is fixed once the loader has built
    the graph; the flags and lists the stripper changes are mutable fields. */
module Metadata {

  datatype Option<T> = None | Some(value: T)

  /** The CIL opcodes the stripper emits. */
  datatype OpCode = Ldc_I4_0 | Ldnull | Ret | Throw

  /** The member-access mask of a method or field (MethodAttributes / FieldAttributes).
      `IsCompilerControlled` and `IsPublic` are tests of this mask, and setting
      `IsPublic` replaces the mask by `Public`. */
  datatype MemberAccess = CompilerControlled | Private | FamANDAssem | Assembly | Family | FamORAssem | Public

  /** The visibility mask of a type (TypeAttributes). Setting `IsPublic` replaces it
      by `Public`, setting `IsNestedPublic` by `NestedPublic`. */
  datatype TypeVisibility =
    | NotPublic | Public
    | NestedPublic | NestedPrivate | NestedFamily | NestedAssembly | NestedFamANDAssem | NestedFamORAssem

  /** A custom attribute, identified by the full name of its attribute type. */
  datatype CustomAttribute = CustomAttribute(attributeType: string)

  /** A constructor reference of an attribute type, known by that type's full name. */
  datatype AttributeCtor = AttributeCtor(declaringType: string)

  datatype EventDef = EventDef(name: string)

  datatype Resource = Resource(name: string)

  /** A type reference. Two references are the same type reference only when they are
      the same object: the stripper compares return types with the module's void
      reference by identity, never by name. */
  class TypeRef {
    const fullName: string
    const isPrimitive: bool

    constructor (fullName: string, isPrimitive: bool)
      ensures this.fullName == fullName && this.isPrimitive == isPrimitive
    {
      this.fullName, this.isPrimitive := fullName, isPrimitive;
    }
  }

  /** The part of a method that body stripping may change. */
  datatype MethodImpl = MethodImpl(
    body: Option<seq<OpCode>>,
    isRuntime: bool,
    isIL: bool,
    aggressiveInlining: bool,
    noInlining: bool)

  class MethodDef {
    const name: string
    const returnType: TypeRef
    const attributes: seq<CustomAttribute>
    var access: MemberAccess
    /** `None` when the method has no managed body (HasBody is false). */
    var body: Option<seq<OpCode>>
    var isRuntime: bool
    var isIL: bool
    var aggressiveInlining: bool
    var noInlining: bool

    constructor (name: string, returnType: TypeRef, attributes: seq<CustomAttribute>,
                 access: MemberAccess, impl: MethodImpl)
      ensures this.name == name && this.returnType == returnType && this.attributes == attributes
      ensures this.access == access && Impl() == impl
    {
      this.name, this.returnType, this.attributes := name, returnType, attributes;
      this.access := access;
      body, isRuntime, isIL := impl.body, impl.isRuntime, impl.isIL;
      aggressiveInlining, noInlining := impl.aggressiveInlining, impl.noInlining;
    }

    function Impl(): MethodImpl
      reads this
    {
      MethodImpl(body, isRuntime, isIL, aggressiveInlining, noInlining)
    }
  }

  /** The part of a field that promotion may change. */
  datatype FieldState = FieldState(
    access: MemberAccess,
    attributes: seq<CustomAttribute>,
    isNotSerialized: bool,
    isInitOnly: bool)

  class FieldDef {
    const name: string
    var access: MemberAccess
    var attributes: seq<CustomAttribute>
    var isNotSerialized: bool
    var isInitOnly: bool

    constructor (name: string, state: FieldState)
      ensures this.name == name && State() == state
    {
      this.name := name;
      access, attributes := state.access, state.attributes;
      isNotSerialized, isInitOnly := state.isNotSerialized, state.isInitOnly;
    }

    function State(): FieldState
      reads this
    {
      FieldState(access, attributes, isNotSerialized, isInitOnly)
    }
  }

  class TypeDef {
    const name: string
    /** True exactly for a type declared inside another type. */
    const isNested: bool
    const isEnum: bool
    const isInterface: bool
    const attributes: seq<CustomAttribute>
    const methods: seq<MethodDef>
    const fields: seq<FieldDef>
    const events: seq<EventDef>
    const nestedTypes: seq<TypeDef>
    /** Proof-only measure: strictly larger than the height of every nested type,
        which makes nesting acyclic and finite. */
    ghost const height: nat
    var visibility: TypeVisibility

    constructor (name: string, isNested: bool, isEnum: bool, isInterface: bool,
                 attributes: seq<CustomAttribute>, methods: seq<MethodDef>, fields: seq<FieldDef>,
                 events: seq<EventDef>, nestedTypes: seq<TypeDef>, visibility: TypeVisibility,
                 ghost height: nat)
      ensures this.name == name && this.isNested == isNested
      ensures this.isEnum == isEnum && this.isInterface == isInterface
      ensures this.attributes == attributes && this.methods == methods && this.fields == fields
      ensures this.events == events && this.nestedTypes == nestedTypes
      ensures this.visibility == visibility && this.height == height
    {
      this.name, this.isNested, this.isEnum, this.isInterface := name, isNested, isEnum, isInterface;
      this.attributes, this.methods, this.fields := attributes, methods, fields;
      this.events, this.nestedTypes := events, nestedTypes;
      this.visibility, this.height := visibility, height;
    }
  }

  /** The main module: its top-level types, its canonical void reference and its
      embedded resources. */
  class ModuleDef {
    const types: seq<TypeDef>
    const voidType: TypeRef
    var resources: seq<Resource>

    constructor (types: seq<TypeDef>, voidType: TypeRef, resources: seq<Resource>)
      ensures this.types == types && this.voidType == voidType && this.resources == resources
    {
      this.types, this.voidType, this.resources := types, voidType, resources;
    }
  }

  class AssemblyDef {
    const mainModule: ModuleDef

    constructor (mainModule: ModuleDef)
      ensures this.mainModule == mainModule
    {
      this.mainModule := mainModule;
    }
  }

  /** Every value occurs at most once in `s`. */
  ghost predicate NoDuplicates<T>(s: seq<T>) {
    forall x <- s :: multiset(s)[x] == 1
  }

  /** Nesting goes strictly down in height, every nested type is marked nested, and
      the same holds of every nested type. */
  ghost predicate Tree(t: TypeDef)
    decreases t.height
  {
    forall c <- t.nestedTypes :: c.isNested && c.height < t.height && Tree(c)
  }

  ghost predicate Forest(q: seq<TypeDef>) {
    forall t <- q :: Tree(t)
  }
}
