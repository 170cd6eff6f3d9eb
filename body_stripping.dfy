/** Body stripping: every method that has a managed body, in every type that is
    neither an enum nor an interface, gets a stand-in body chosen by a closed
    five-way policy; afterwards the module's resources are dropped unless asked to
    keep them. */
module BodyStripping {
  import opened Metadata
  import opened TypeEnumeration

  datatype StripType = ThrowNull | ValueRet | OnlyRet | EmptyBody | Extern

  /** The stand-in body a non-Extern policy installs in a method returning `returnType`;
      `voidType` is the module's canonical void reference. */
  function StubInstructions(stripType: StripType, returnType: TypeRef, voidType: TypeRef): seq<OpCode>
    requires stripType != Extern
  {
    match stripType
    case ValueRet =>
      if returnType.isPrimitive then [Ldc_I4_0, Ret]
      else if returnType != voidType then [Ldnull, Ret]
      else [Ret]
    case OnlyRet => [Ret]
    case ThrowNull => [Ldnull, Throw]
    case EmptyBody => []
  }

  /** What stripping does to one method: the specification of one iteration of the
      loop in `ClearMethodBodies`. */
  function Strip(impl: MethodImpl, stripType: StripType, returnType: TypeRef, voidType: TypeRef): MethodImpl {
    if impl.body.None? then impl
    else if stripType == Extern then impl.(body := None, isRuntime := true, isIL := false)
    else impl.(body := Some(StubInstructions(stripType, returnType, voidType)),
               aggressiveInlining := false, noInlining := true)
  }

  /** Stripping never touches a method that has no managed body. */
  lemma StripKeepsBodylessMethod(impl: MethodImpl, stripType: StripType, returnType: TypeRef, voidType: TypeRef)
    requires impl.body.None?
    ensures Strip(impl, stripType, returnType, voidType) == impl
  {
  }

  /** Extern drops the body, marks the method runtime-implemented and not IL, and leaves
      the inlining hints as they were. */
  lemma ExternDropsBody(impl: MethodImpl, returnType: TypeRef, voidType: TypeRef)
    requires impl.body.Some?
    ensures var r := Strip(impl, Extern, returnType, voidType);
      r.body.None? && r.isRuntime && !r.isIL &&
      r.aggressiveInlining == impl.aggressiveInlining && r.noInlining == impl.noInlining
  {
  }

  /** Every other policy installs a body, forbids inlining and leaves the
      runtime/IL flags as they were. */
  lemma StubForbidsInlining(impl: MethodImpl, stripType: StripType, returnType: TypeRef, voidType: TypeRef)
    requires impl.body.Some? && stripType != Extern
    ensures var r := Strip(impl, stripType, returnType, voidType);
      r.body.Some? && !r.aggressiveInlining && r.noInlining &&
      r.isRuntime == impl.isRuntime && r.isIL == impl.isIL
  {
  }

  /** The exact shapes of the stand-in bodies. */
  lemma StubShapes(impl: MethodImpl, returnType: TypeRef, voidType: TypeRef)
    requires impl.body.Some?
    ensures Strip(impl, ThrowNull, returnType, voidType).body == Some([Ldnull, Throw])
    ensures Strip(impl, OnlyRet, returnType, voidType).body == Some([Ret])
    ensures Strip(impl, EmptyBody, returnType, voidType).body == Some([])
    ensures returnType.isPrimitive ==>
      Strip(impl, ValueRet, returnType, voidType).body == Some([Ldc_I4_0, Ret])
    ensures !returnType.isPrimitive && returnType == voidType ==>
      Strip(impl, ValueRet, returnType, voidType).body == Some([Ret])
    ensures !returnType.isPrimitive && returnType != voidType ==>
      Strip(impl, ValueRet, returnType, voidType).body == Some([Ldnull, Ret])
  {
  }

  /** Stripping a stripped method again changes nothing, under every policy; in
      particular a second Extern pass is a no-op. */
  lemma StripIdempotent(impl: MethodImpl, stripType: StripType, returnType: TypeRef, voidType: TypeRef)
    ensures var once := Strip(impl, stripType, returnType, voidType);
      Strip(once, stripType, returnType, voidType) == once
  {
  }

  /** A value on the CIL evaluation stack, as far as the stand-in bodies need one. */
  datatype Value = Int32(i: int) | NullReference

  /** How running a body ends. */
  datatype Outcome = Returned(result: Option<Value>) | Threw(exception: Value) | FellOffEnd | StackFault

  /** Runs a straight-line body from the evaluation stack `stack` (top last). `ret`
      returns the single value on the stack, or nothing from an empty stack. */
  function Run(il: seq<OpCode>, stack: seq<Value>): Outcome
    decreases |il|
  {
    if il == [] then FellOffEnd
    else match il[0]
      case Ldc_I4_0 => Run(il[1..], stack + [Int32(0)])
      case Ldnull => Run(il[1..], stack + [NullReference])
      case Ret =>
        if stack == [] then Returned(None)
        else if |stack| == 1 then Returned(Some(stack[0]))
        else StackFault
      case Throw => if stack == [] then StackFault else Threw(stack[|stack| - 1])
  }

  /** The value a ValueRet body returns: an int32 zero for a primitive return type,
      nothing for the module's void reference, null for any other type. A 64-bit or
      floating primitive still gets an int32 zero, and a non-primitive value type
      gets null, so this is not the return type's default value in general. */
  function ValueRetResult(returnType: TypeRef, voidType: TypeRef): Option<Value> {
    if returnType.isPrimitive then Some(Int32(0))
    else if returnType == voidType then None
    else Some(NullReference)
  }

  /** What each stand-in body does when run: ValueRet returns `ValueRetResult`, ThrowNull throws null, OnlyRet returns without a value, and
      EmptyBody runs off its end without returning. */
  lemma StubBehaviour(returnType: TypeRef, voidType: TypeRef)
    ensures Run(StubInstructions(ValueRet, returnType, voidType), []) == Returned(ValueRetResult(returnType, voidType))
    ensures Run(StubInstructions(ThrowNull, returnType, voidType), []) == Threw(NullReference)
    ensures Run(StubInstructions(OnlyRet, returnType, voidType), []) == Returned(None)
    ensures Run(StubInstructions(EmptyBody, returnType, voidType), []) == FellOffEnd
  {
  }

  /** A type whose methods are stripped: neither an enum nor an interface. */
  predicate Strippable(t: TypeDef) {
    !t.isEnum && !t.isInterface
  }

  /** `m` is a method of some strippable type of `ts`. */
  ghost predicate StrippedIn(m: MethodDef, ts: seq<TypeDef>) {
    exists t <- ts :: Strippable(t) && m in t.methods
  }

  method ClearMethodBodies(voidTypeReference: TypeRef, methods: seq<MethodDef>, stripType: StripType)
    modifies methods
    ensures forall m <- methods :: m.Impl() == Strip(old(m.Impl()), stripType, m.returnType, voidTypeReference)
    ensures forall m <- methods :: m.access == old(m.access)
  {
    for i := 0 to |methods|
      invariant forall m <- methods[..i] ::
        m.Impl() == Strip(old(m.Impl()), stripType, m.returnType, voidTypeReference)
      invariant forall m <- methods :: m !in methods[..i] ==> m.Impl() == old(m.Impl())
      invariant forall m <- methods :: m.access == old(m.access)
    {
      var m := methods[i];
      ghost var before := m.Impl();
      if m.body.None? {
        continue;
      }
      if stripType == Extern {
        m.body := None;
        m.isRuntime := true;
        m.isIL := false;
      } else {
        var il: seq<OpCode> := [];
        match stripType {
          case ValueRet =>
            if m.returnType.isPrimitive {
              il := il + [Ldc_I4_0];
            } else if m.returnType != voidTypeReference {
              il := il + [Ldnull];
            }
            il := il + [Ret];
            assert il == StubInstructions(stripType, m.returnType, voidTypeReference);
          case OnlyRet =>
            il := il + [Ret];
          case ThrowNull =>
            il := il + [Ldnull];
            il := il + [Throw];
            assert il == [Ldnull, Throw];
          case EmptyBody =>
            il := [];
        }
        assert il == StubInstructions(stripType, m.returnType, voidTypeReference);
        m.body := Some(il);
        m.aggressiveInlining := false;
        m.noInlining := true;
      }
      assert m.Impl() == Strip(before, stripType, m.returnType, voidTypeReference);
      forall x <- methods[..i + 1]
        ensures x.Impl() == Strip(old(x.Impl()), stripType, x.returnType, voidTypeReference)
      {
        if x == m && m in methods[..i] {
          StripIdempotent(old(m.Impl()), stripType, m.returnType, voidTypeReference);
        } else if x != m {
          assert x in methods[..i];
        }
      }
    }
  }

  method StripAssembly(assembly: AssemblyDef, stripType: StripType, keepResources: bool)
    requires Forest(assembly.mainModule.types)
    modifies assembly.mainModule, MethodsOf(AllTypes(assembly.mainModule))
    ensures forall m <- MethodsOf(AllTypes(assembly.mainModule)) ::
      m.Impl() == if StrippedIn(m, AllTypes(assembly.mainModule))
                  then Strip(old(m.Impl()), stripType, m.returnType, assembly.mainModule.voidType)
                  else old(m.Impl())
    ensures forall m <- MethodsOf(AllTypes(assembly.mainModule)) :: m.access == old(m.access)
    ensures assembly.mainModule.resources == if keepResources then old(assembly.mainModule.resources) else []
  {
    AllTypesAllocated(assembly.mainModule);
    var voidTypeReference := assembly.mainModule.voidType;
    var types := GetAllTypeDefinitions(assembly);
    for i := 0 to |types|
      invariant forall m <- MethodsOf(types) :: old(allocated(m))
      invariant forall m <- MethodsOf(AllTypes(assembly.mainModule)) ::
        m.Impl() == if StrippedIn(m, types[..i])
                    then Strip(old(m.Impl()), stripType, m.returnType, voidTypeReference)
                    else old(m.Impl())
      invariant forall m <- MethodsOf(AllTypes(assembly.mainModule)) :: m.access == old(m.access)
      invariant assembly.mainModule.resources == old(assembly.mainModule.resources)
    {
      var t := types[i];
      assert types[..i + 1] == types[..i] + [t];
      if t.isEnum || t.isInterface {
        assert forall m :: StrippedIn(m, types[..i + 1]) == StrippedIn(m, types[..i]);
        continue;
      }
      assert forall m <- t.methods :: m in MethodsOf(types);
      ClearMethodBodies(voidTypeReference, t.methods, stripType);
      forall m <- MethodsOf(types)
        ensures m.Impl() == if StrippedIn(m, types[..i + 1])
                            then Strip(old(m.Impl()), stripType, m.returnType, voidTypeReference)
                            else old(m.Impl())
      {
        if m in t.methods {
          assert StrippedIn(m, types[..i + 1]);
          if StrippedIn(m, types[..i]) {
            StripIdempotent(old(m.Impl()), stripType, m.returnType, voidTypeReference);
          }
        } else {
          assert StrippedIn(m, types[..i + 1]) == StrippedIn(m, types[..i]);
        }
      }
    }
    assert types[..|types|] == types;
    if !keepResources {
      assembly.mainModule.resources := [];
    }
  }
}
