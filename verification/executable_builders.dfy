/** `ExecutableBuilder`: the builder shared by methods and constructors. It
    collects formal parameters (whose names are made chosen in the
    executable's variable scope) and thrown types, and hands out the
    executable's raw and internal types. Which raw-type accessor is legal is
    decided by the executable's residence: a static member has a type of its
    own, an instance member only a type relative to a parent instance type.
 */
module ExecutableBuilders {
  import opened Wrappers
  import opened Types
  import opened Environments
  import opened Arena

  // ---------------------------------------------------------------------
  // Fresh names.
  // ---------------------------------------------------------------------

  /** Names in `scope` at least as long as `name`. */
  function LongNames(scope: set<Name>, name: Name): set<Name> {
    set s | s in scope && |s| >= |name|
  }

  /** `VariableScope.makeIntroducable`: a name not yet in the scope, the
      requested name itself when it is free. The scope's own renaming scheme
      is not part of this model; this one appends underscores, and only the
      two facts of the contract are relied on. */
  function MakeIntroducable(scope: set<Name>, name: Name): (r: Name)
    ensures r !in scope
    ensures name !in scope ==> r == name
    decreases |LongNames(scope, name)|
  {
    if name !in scope then name
    else
      var longer := name + "_";
      assert name in LongNames(scope, name) && name !in LongNames(scope, longer);
      ProperSubsetSmaller(LongNames(scope, longer), LongNames(scope, name));
      MakeIntroducable(scope, longer)
  }

  lemma ProperSubsetSmaller(a: set<Name>, b: set<Name>)
    requires a < b
    ensures |a| < |b|
  {
    var d := b - a;
    assert b == a + d && a !! d;
    assert |d| > 0;
  }

  // ---------------------------------------------------------------------
  // Parameters and thrown types.
  // ---------------------------------------------------------------------

  const VoidParameterMessage := "void is not allowed here"

  /** `addParameter` (`isFinal` false) and `addFinalParameter` (`isFinal`
      true). The requested name is first made chosen and introduced into the
      scope; only then does the parameter constructor reject a void type. So
      a rejected call leaves the parameter list unchanged but the scope
      grown. On success the parameter is appended with the chosen name. */
  function AddParameterOf(m: CodeModel, xid: ExecId, isFinal: bool, t: Type, name: Name): (s: Step<()>)
    requires xid < |m.executables|
    ensures var e := m.executables[xid];
            var chosen := MakeIntroducable(e.scope, name);
            && chosen !in e.scope
            && s.model.objects == m.objects && s.model.fields == m.fields
            && |s.model.executables| == |m.executables|
            && (forall j :: 0 <= j < |m.executables| && j != xid ==> s.model.executables[j] == m.executables[j])
            && s.model.executables[xid].scope == e.scope + {chosen}
            && (s.outcome.Failure? <==> t.IsVoid())
            && (s.outcome.Failure? ==>
                  s.outcome.error == ModelError(VoidParameterMessage)
                  && s.model.executables[xid] == e.(scope := e.scope + {chosen}))
            && (s.outcome.Success? ==>
                  s.model.executables[xid] == e.(scope := e.scope + {chosen},
                                                 parameters := e.parameters + [Parameter(isFinal, t, chosen)]))
    ensures Valid(m) ==> Valid(s.model)
  {
    var e := m.executables[xid];
    var chosen := MakeIntroducable(e.scope, name);
    var scoped := e.(scope := e.scope + {chosen});
    var e' := if t.IsVoid() then scoped else scoped.(parameters := e.parameters + [Parameter(isFinal, t, chosen)]);
    AddParameterValid(m, xid, e', chosen);
    Step(m.(executables := m.executables[xid := e']),
         if t.IsVoid() then Failure(ModelError(VoidParameterMessage)) else Success(()))
  }

  lemma AddParameterValid(m: CodeModel, xid: ExecId, e': ExecutableDef, chosen: Name)
    requires xid < |m.executables|
    requires var e := m.executables[xid];
             && chosen !in e.scope
             && (e' == e.(scope := e.scope + {chosen}) ||
                 exists p :: e' == e.(scope := e.scope + {chosen}, parameters := e.parameters + [p]) && p.name == chosen)
    ensures Valid(m) ==> Valid(m.(executables := m.executables[xid := e']))
  {
    if Valid(m) {
      var e := m.executables[xid];
      assert ExecutableWellFormed(e, |m.objects|);
      assert forall i :: 0 <= i < |e.parameters| ==> e.parameters[i].name in e.scope;
      UpdateExecutableValid(m, xid, e');
    }
  }

  function AddParameter(m: CodeModel, xid: ExecId, t: Type, name: Name): (s: Step<()>)
    requires xid < |m.executables|
    ensures s.outcome.Success? ==>
              && |s.model.executables| == |m.executables|
              && |s.model.executables[xid].parameters| == |m.executables[xid].parameters| + 1
              && !s.model.executables[xid].parameters[|m.executables[xid].parameters|].isFinal
  {
    AddParameterOf(m, xid, false, t, name)
  }

  function AddFinalParameter(m: CodeModel, xid: ExecId, t: Type, name: Name): (s: Step<()>)
    requires xid < |m.executables|
    ensures s.outcome.Success? ==>
              && |s.model.executables| == |m.executables|
              && |s.model.executables[xid].parameters| == |m.executables[xid].parameters| + 1
              && s.model.executables[xid].parameters[|m.executables[xid].parameters|].isFinal
  {
    AddParameterOf(m, xid, true, t, name)
  }

  /** A rejected void parameter is not free of side effects: its name is
      taken, so a later parameter requested under the same name is stored
      under a different one. */
  lemma RejectedParameterTakesName(m: CodeModel, xid: ExecId, t: Type, name: Name)
    requires xid < |m.executables| && name !in m.executables[xid].scope && !t.IsVoid()
    ensures var s1 := AddParameterOf(m, xid, false, Void, name);
            var s2 := AddParameterOf(s1.model, xid, false, t, name);
            && s1.outcome.Failure? && s1.model.executables[xid].parameters == m.executables[xid].parameters
            && s2.outcome.Success?
            && var ps := s2.model.executables[xid].parameters;
               ps[|ps| - 1].name != name
  {
  }

  /** Parameter names stay pairwise distinct over any sequence of
      additions: adding a parameter to an executable whose parameters are in
      its scope and distinct keeps both facts. */
  lemma ParameterNamesStayDistinct(m: CodeModel, xid: ExecId, isFinal: bool, t: Type, name: Name)
    requires xid < |m.executables|
    requires ParametersScoped(m.executables[xid]) && ParameterNamesDistinct(m.executables[xid].parameters)
    ensures var e' := AddParameterOf(m, xid, isFinal, t, name).model.executables[xid];
            ParametersScoped(e') && ParameterNamesDistinct(e'.parameters)
  {
  }

  /** `throwsException`: the type must be an object type, then its
      definition must not be generic; otherwise it is appended to the throws
      list. A rejected call changes nothing. */
  function ThrowsException(m: CodeModel, xid: ExecId, t: Type): (s: Step<()>)
    requires xid < |m.executables|
    requires t.Object? ==> t.objectType.definition < |m.objects|
    ensures s.outcome.Failure? ==> s.model == m
    ensures !t.IsObjectType() ==> s.outcome == Failure(ModelError("Only object type can be an exception"))
    ensures t.IsObjectType() && IsGeneric(m, t.objectType.definition) ==>
              s.outcome == Failure(ModelError("Generic class can't be used as throwable exception"))
    ensures s.outcome.Success? <==> t.IsObjectType() && !IsGeneric(m, t.objectType.definition)
    ensures s.outcome.Success? ==>
              var e := m.executables[xid];
              s.model == m.(executables := m.executables[xid := e.(throwsList := e.throwsList + [t])])
    ensures Valid(m) ==> Valid(s.model)
  {
    if !t.IsObjectType() then Step(m, Failure(ModelError("Only object type can be an exception")))
    else if IsGeneric(m, t.objectType.definition) then
      Step(m, Failure(ModelError("Generic class can't be used as throwable exception")))
    else
      var e := m.executables[xid];
      var e' := e.(throwsList := e.throwsList + [t]);
      ThrowsValid(m, xid, e');
      Step(m.(executables := m.executables[xid := e']), Success(()))
  }

  lemma ThrowsValid(m: CodeModel, xid: ExecId, e': ExecutableDef)
    requires xid < |m.executables| && e' == m.executables[xid].(throwsList := e'.throwsList)
    ensures Valid(m) ==> Valid(m.(executables := m.executables[xid := e']))
  {
    if Valid(m) {
      assert ExecutableWellFormed(m.executables[xid], |m.objects|);
      UpdateExecutableValid(m, xid, e');
    }
  }

  /** `throwsException` applied to each of `ts` in turn, stopping at the
      first rejection. */
  function ThrowsAll(m: CodeModel, xid: ExecId, ts: seq<Type>): Step<()>
    requires xid < |m.executables|
    requires forall i :: 0 <= i < |ts| && ts[i].Object? ==> ts[i].objectType.definition < |m.objects|
    decreases |ts|
  {
    if |ts| == 0 then Step(m, Success(()))
    else
      var s := ThrowsException(m, xid, ts[0]);
      if s.outcome.Failure? then s else ThrowsAll(s.model, xid, ts[1..])
  }

  /** An accepted `throwsException` changes no object definition. */
  lemma ThrowKeepsObjects(m: CodeModel, xid: ExecId, t: Type)
    requires xid < |m.executables| && t.Object? && t.objectType.definition < |m.objects|
    requires !IsGeneric(m, t.objectType.definition)
    ensures var s := ThrowsException(m, xid, t);
            && s.outcome.Success? && s.model.objects == m.objects
            && |s.model.executables| == |m.executables|
            && s.model.executables[xid].throwsList == m.executables[xid].throwsList + [t]
  {
  }

  /** The throws list records accepted types in call order. */
  lemma {:induction false} ThrowsInCallOrder(m: CodeModel, xid: ExecId, ts: seq<Type>)
    requires xid < |m.executables|
    requires forall i :: 0 <= i < |ts| ==>
               ts[i].Object? && ts[i].objectType.definition < |m.objects| && !IsGeneric(m, ts[i].objectType.definition)
    ensures var s := ThrowsAll(m, xid, ts);
            s.outcome.Success? && |s.model.executables| == |m.executables|
            && s.model.executables[xid].throwsList == m.executables[xid].throwsList + ts
    decreases |ts|
  {
    if |ts| > 0 {
      var s := ThrowsException(m, xid, ts[0]);
      var rest := ts[1..];
      ThrowKeepsObjects(m, xid, ts[0]);
      assert forall i :: 0 <= i < |rest| ==> rest[i] == ts[i + 1];
      ThrowsInCallOrder(s.model, xid, rest);
      assert ThrowsAll(m, xid, ts) == ThrowsAll(s.model, xid, rest);
      assert m.executables[xid].throwsList + [ts[0]] + rest == m.executables[xid].throwsList + ts;
    }
  }

  // ---------------------------------------------------------------------
  // Raw and internal types.
  // ---------------------------------------------------------------------

  /** `TypeContainer`: a static executable is given its raw type at
      construction; an instance executable has none. */
  function TypeContainer(m: CodeModel, xid: ExecId): (r: Option<ExecutableType>)
    requires xid < |m.executables|
    ensures r.Some? <==> m.executables[xid].isStatic
    ensures r.Some? ==> r.value.definition == xid && r.value.capturedEnclosing.None? && |r.value.typeArguments| == 0
  {
    if m.executables[xid].isStatic then Some(ExecutableType(xid, [], None)) else None
  }

  /** `rawType()`: the type of a static executable, captured by nothing; an
      instance executable needs a parent instance type. */
  function RawType(m: CodeModel, xid: ExecId): (r: Result<Type>)
    requires xid < |m.executables|
    ensures r.Success? <==> m.executables[xid].isStatic
    ensures r.Success? ==> r.value.IsExecutable() && Some(r.value.executableType) == TypeContainer(m, xid)
    ensures r.Failure? ==> r.error == Unsupported("Parent instance type is required")
  {
    match TypeContainer(m, xid)
    case Some(x) => Success(Executable(x))
    case None => Failure(Unsupported("Parent instance type is required"))
  }

  /** `rawType(parentInstanceType)`: the type of an instance executable
      relative to the given parent instance, which must be an object type. A
      static executable rejects any parent. */
  function RawTypeIn(m: CodeModel, xid: ExecId, parent: Type): (r: Result<Type>)
    requires xid < |m.executables|
    ensures m.executables[xid].isStatic ==> r == Failure(Unsupported("Type is static memeber, no parent is expected."))
    ensures !m.executables[xid].isStatic && !parent.IsObjectType() ==> r == Failure(Unsupported("Object type expected"))
    ensures r.Success? <==> !m.executables[xid].isStatic && parent.IsObjectType()
    ensures r.Success? ==>
              && r.value.IsExecutable()
              && r.value.executableType.definition == xid
              && |r.value.executableType.typeArguments| == 0
              && r.value.executableType.capturedEnclosing == Some(parent.objectType)
  {
    if m.executables[xid].isStatic then Failure(Unsupported("Type is static memeber, no parent is expected."))
    else
      var o :- GetObjectDetails(parent);
      Success(Executable(ExecutableType(xid, [], Some(o))))
  }

  /** Exactly one raw-type accessor is legal for an executable, and which
      one is decided by its residence: for an object-type parent, `rawType()`
      succeeds iff `rawType(parent)` fails. */
  lemma RawTypeAccessorsExclusive(m: CodeModel, xid: ExecId, parent: Type)
    requires xid < |m.executables| && parent.IsObjectType()
    ensures RawType(m, xid).Success? <==> !RawTypeIn(m, xid, parent).Success?
    ensures RawType(m, xid).Success? <==> m.executables[xid].isStatic
  {
  }

  /** `isConstructor()` / `isMethod()`: complementary. */
  predicate IsConstructor(m: CodeModel, xid: ExecId)
    requires xid < |m.executables|
  {
    m.executables[xid].isConstructor
  }

  function IsMethod(m: CodeModel, xid: ExecId): (r: bool)
    requires xid < |m.executables|
    ensures r <==> !IsConstructor(m, xid)
  {
    !m.executables[xid].isConstructor
  }

  /** The internal type of an object definition: the definition applied to
      its own type parameters as type variables, captured by the parent's
      internal type when it is an instance member of another definition.
      `ObjectDefinition.internalType` is not part of this model; this is the
      shape the executable builder relies on. */
  function ObjectInternalType(m: CodeModel, oid: ObjId): (r: ObjectType)
    requires Valid(m) && oid < |m.objects|
    ensures r.definition == oid
    ensures |r.typeArguments| == |m.objects[oid].typeParameters|
    ensures forall i :: 0 <= i < |r.typeArguments| ==> r.typeArguments[i] == Variable(m.objects[oid].typeParameters[i])
    ensures r.capturedEnclosing.Some? <==> m.objects[oid].residence.Nested? && !m.objects[oid].residence.isStatic
    decreases oid
  {
    var o := m.objects[oid];
    var arguments := TypeVariables(o.typeParameters);
    match o.residence
    case Nested(false, parent) => ObjectType(oid, arguments, Some(ObjectInternalType(m, parent)))
    case _ => ObjectType(oid, arguments, None)
  }

  /** The type variables named by `names`, in order. */
  function TypeVariables(names: seq<Name>): (r: seq<Type>)
    ensures |r| == |names|
    ensures forall i :: 0 <= i < |names| ==> r[i] == Variable(names[i])
  {
    seq(|names|, i requires 0 <= i < |names| => Variable(names[i]))
  }

  const ArityMessage := "Type arguments count mismatch"

  /** `narrow` of a raw executable type: the given type arguments are
      accepted exactly when there is one per type parameter of the
      definition. Bound checks are not part of this model. */
  function NarrowExecutable(m: CodeModel, x: ExecutableType, arguments: seq<Type>): (r: Result<Type>)
    requires x.definition < |m.executables|
    ensures r.Success? <==> |arguments| == |m.executables[x.definition].typeParameters|
    ensures r.Success? ==> r.value == Executable(x.(typeArguments := arguments))
    ensures r.Failure? ==> r.error == ModelError(ArityMessage)
  {
    if |arguments| == |m.executables[x.definition].typeParameters| then Success(Executable(x.(typeArguments := arguments)))
    else Failure(ModelError(ArityMessage))
  }

  /** `internalType()`: the raw type (own for a static executable, relative
      to the parent definition's internal type otherwise) narrowed to the
      executable's own type parameters. The narrowing has one argument per
      parameter by construction, so it never fails. */
  function InternalType(m: CodeModel, xid: ExecId): (r: Type)
    requires Valid(m) && xid < |m.executables|
    ensures r.IsExecutable() && r.executableType.definition == xid
    ensures r.executableType.typeArguments == TypeVariables(m.executables[xid].typeParameters)
    ensures m.executables[xid].isStatic <==> r.executableType.capturedEnclosing.None?
    ensures !m.executables[xid].isStatic ==>
              r.executableType.capturedEnclosing == Some(ObjectInternalType(m, m.executables[xid].parent))
  {
    var e := m.executables[xid];
    var raw := if e.isStatic then RawType(m, xid) else RawTypeIn(m, xid, Object(ObjectInternalType(m, e.parent)));
    var arguments := TypeVariables(e.typeParameters);
    match raw
    case Success(t) =>
      (match NarrowExecutable(m, t.executableType, arguments)
       case Success(narrowed) => narrowed
       case Failure(_) => assert false; t)
    case Failure(_) => assert false; Void
  }

  /** `returnType()` of an executable type: a constructor returns the parent
      instance type; a method returns its declared result type, moved into
      the parent instance type's definition environment when there is a
      parent. A constructor type always has a parent instance (constructors
      are instance members). Only the raw types the builder hands out, which
      carry no type arguments, answer `returnType()`. */
  function ReturnType(m: CodeModel, x: ExecutableType): (r: Type)
    requires x.definition < |m.executables|
    requires |x.typeArguments| == 0
    requires m.executables[x.definition].isConstructor ==> x.capturedEnclosing.Some?
    ensures m.executables[x.definition].isConstructor ==> r == Object(x.capturedEnclosing.value)
    ensures !m.executables[x.definition].isConstructor && x.capturedEnclosing.None? ==>
              r == m.executables[x.definition].resultType
    ensures !m.executables[x.definition].isConstructor && x.capturedEnclosing.Some? ==>
              r == Substitute(m.executables[x.definition].resultType,
                              ObjectEnvironment(x.capturedEnclosing.value, ObjectParametersOf(m)))
    ensures !m.executables[x.definition].isConstructor && x.capturedEnclosing.Some? ==>
              var env := ObjectEnvironment(x.capturedEnclosing.value, ObjectParametersOf(m));
              (FreeVariables(m.executables[x.definition].resultType) !! env.Keys ==> r == m.executables[x.definition].resultType)
              && (forall n :: m.executables[x.definition].resultType == Variable(n) && n in env ==> r == env[n])
  {
    var e := m.executables[x.definition];
    if e.isConstructor then Object(x.capturedEnclosing.value)
    else match x.capturedEnclosing
      case None => e.resultType
      case Some(parent) =>
        var env := ObjectEnvironment(parent, ObjectParametersOf(m));
        var r := Substitute(e.resultType, env);
        if FreeVariables(e.resultType) !! env.Keys then SubstituteClosed(e.resultType, env); r else r
  }

  /** `capturedEnclosingType()` is absent exactly when there is no parent
      instance: for the raw types the builder hands out, exactly for static
      executables. */
  lemma CapturedEnclosingIffInstance(m: CodeModel, xid: ExecId, parent: Type)
    requires xid < |m.executables| && parent.IsObjectType()
    ensures var r := if m.executables[xid].isStatic then RawType(m, xid) else RawTypeIn(m, xid, parent);
            r.Success? && (r.value.executableType.capturedEnclosing.None? <==> m.executables[xid].isStatic)
  {
  }

  /** A method's return type, through the raw type the builder hands out:
      a static method returns its declared result type; an instance method
      relative to a parent returns the declared result type moved into the
      parent's definition environment, which is the declared type itself
      when the parent is a raw top-level type. */
  lemma MethodReturnsResultInParent(m: CodeModel, xid: ExecId, parent: ObjectType)
    requires xid < |m.executables| && !m.executables[xid].isConstructor
    ensures m.executables[xid].isStatic ==>
              var r := RawType(m, xid);
              r.Success? && ReturnType(m, r.value.executableType) == m.executables[xid].resultType
    ensures !m.executables[xid].isStatic ==>
              var r := RawTypeIn(m, xid, Object(parent));
              && r.Success?
              && ReturnType(m, r.value.executableType)
                 == Substitute(m.executables[xid].resultType, ObjectEnvironment(parent, ObjectParametersOf(m)))
              && (parent.capturedEnclosing.None? && |parent.typeArguments| == 0 ==>
                    ReturnType(m, r.value.executableType) == m.executables[xid].resultType)
  {
    if !m.executables[xid].isStatic && parent.capturedEnclosing.None? && |parent.typeArguments| == 0 {
      SubstituteEmpty(m.executables[xid].resultType);
    }
  }

  /** A constructor's return type, through the raw type relative to a
      parent instance, is that parent instance type. */
  lemma ConstructorReturnsParent(m: CodeModel, xid: ExecId, parent: Type)
    requires xid < |m.executables| && parent.IsObjectType()
    requires m.executables[xid].isConstructor && !m.executables[xid].isStatic
    ensures var r := RawTypeIn(m, xid, parent);
            r.Success? && ReturnType(m, r.value.executableType) == parent
  {
  }
}
