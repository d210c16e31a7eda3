/** Cached views over instantiated types: the substituted parameter and
    throws lists of an executable type (`ExecutableType.parameters` and
    `throwsList`) and the member list of an object type
    (`ObjectTypeDetails.methods`). Each is computed on first use and then
    kept; a view value carries its cache explicitly, and each accessor
    returns the updated view together with its answer.
 */
module TypeViews {
  import opened Wrappers
  import opened Types
  import opened Environments
  import opened Arena
  import opened ObjectBuilders
  import opened ExecutableBuilders

  // ---------------------------------------------------------------------
  // Executable types: substituted parameters and thrown types.
  // ---------------------------------------------------------------------

  /** `definitionEnvironment()` of an executable type over the arena. */
  function DefinitionEnvironment(m: CodeModel, x: ExecutableType): Environment {
    ExecutableEnvironment(x, ObjectParametersOf(m), ExecutableParametersOf(m))
  }

  /** `VariableDeclaration.substitute`: the declared type moves into the
      environment; finality and name are kept. The class is outside this
      model, so this behaviour is assumed. */
  function SubstituteParameter(p: Parameter, env: Environment): (r: Parameter)
    ensures r.name == p.name && r.isFinal == p.isFinal
    ensures p.paramType.IsVoid() || p.paramType.IsPrimitive() ==> r == p
    ensures FreeVariables(p.paramType) !! env.Keys ==> r == p
  {
    var t := Substitute(p.paramType, env);
    if FreeVariables(p.paramType) !! env.Keys then SubstituteClosed(p.paramType, env); p.(paramType := t)
    else p.(paramType := t)
  }

  /** The parameters of the executable's definition, each moved into the
      type's definition environment, in declaration order. */
  function SubstitutedParameters(m: CodeModel, x: ExecutableType): (r: seq<Parameter>)
    requires x.definition < |m.executables|
    ensures var ps := m.executables[x.definition].parameters;
            && |r| == |ps|
            && forall i :: 0 <= i < |ps| ==>
                 r[i].name == ps[i].name && r[i].isFinal == ps[i].isFinal
                 && r[i].paramType == Substitute(ps[i].paramType, DefinitionEnvironment(m, x))
  {
    var ps := m.executables[x.definition].parameters;
    var env := DefinitionEnvironment(m, x);
    seq(|ps|, i requires 0 <= i < |ps| => SubstituteParameter(ps[i], env))
  }

  /** The thrown types of the executable's definition, each moved into the
      type's definition environment, in declaration order. */
  function SubstitutedThrowsList(m: CodeModel, x: ExecutableType): (r: seq<Type>)
    requires x.definition < |m.executables|
    ensures var ts := m.executables[x.definition].throwsList;
            && |r| == |ts|
            && forall i :: 0 <= i < |ts| ==> r[i] == Substitute(ts[i], DefinitionEnvironment(m, x))
  {
    var ts := m.executables[x.definition].throwsList;
    var env := DefinitionEnvironment(m, x);
    seq(|ts|, i requires 0 <= i < |ts| => Substitute(ts[i], env))
  }

  /** A raw, uncaptured executable type has an empty environment, so its
      views are the declarations themselves. */
  lemma RawExecutableViewsAreDeclarations(m: CodeModel, x: ExecutableType)
    requires x.definition < |m.executables| && |x.typeArguments| == 0 && x.capturedEnclosing.None?
    ensures SubstitutedParameters(m, x) == m.executables[x.definition].parameters
    ensures SubstitutedThrowsList(m, x) == m.executables[x.definition].throwsList
  {
    var env := DefinitionEnvironment(m, x);
    assert env == map[];
    var ps := m.executables[x.definition].parameters;
    forall i | 0 <= i < |ps|
      ensures SubstitutedParameters(m, x)[i] == ps[i]
    {
      SubstituteEmpty(ps[i].paramType);
    }
    var ts := m.executables[x.definition].throwsList;
    forall i | 0 <= i < |ts|
      ensures SubstitutedThrowsList(m, x)[i] == ts[i]
    {
      SubstituteEmpty(ts[i]);
    }
  }

  /** An executable type with its two caches. */
  datatype ExecutableTypeView = ExecutableTypeView(
    executableType: ExecutableType,
    parametersCache: Option<seq<Parameter>>,
    throwsListCache: Option<seq<Type>>)

  function NewExecutableTypeView(x: ExecutableType): ExecutableTypeView {
    ExecutableTypeView(x, None, None)
  }

  /** `parameters()`: computed from the arena on the first call and kept;
      every later call answers the kept list. */
  function Parameters(m: CodeModel, v: ExecutableTypeView): (r: (ExecutableTypeView, seq<Parameter>))
    requires v.executableType.definition < |m.executables|
    ensures r.0.parametersCache == Some(r.1)
    ensures r.0.executableType == v.executableType && r.0.throwsListCache == v.throwsListCache
    ensures v.parametersCache.Some? ==> r.0 == v && r.1 == v.parametersCache.value
    ensures v.parametersCache.None? ==> r.1 == SubstitutedParameters(m, v.executableType)
  {
    match v.parametersCache
    case Some(ps) => (v, ps)
    case None =>
      var ps := SubstitutedParameters(m, v.executableType);
      (v.(parametersCache := Some(ps)), ps)
  }

  /** `throwsList()`: computed from the arena on the first call and kept. */
  function ThrowsList(m: CodeModel, v: ExecutableTypeView): (r: (ExecutableTypeView, seq<Type>))
    requires v.executableType.definition < |m.executables|
    ensures r.0.throwsListCache == Some(r.1)
    ensures r.0.executableType == v.executableType && r.0.parametersCache == v.parametersCache
    ensures v.throwsListCache.Some? ==> r.0 == v && r.1 == v.throwsListCache.value
    ensures v.throwsListCache.None? ==> r.1 == SubstitutedThrowsList(m, v.executableType)
  {
    match v.throwsListCache
    case Some(ts) => (v, ts)
    case None =>
      var ts := SubstitutedThrowsList(m, v.executableType);
      (v.(throwsListCache := Some(ts)), ts)
  }

  /** Repeated calls agree, whatever happened to the arena in between: the
      second call answers the first call's list and leaves the view as the
      first call left it. */
  lemma ExecutableViewsMemoised(m1: CodeModel, m2: CodeModel, v: ExecutableTypeView)
    requires v.executableType.definition < |m1.executables| && v.executableType.definition < |m2.executables|
    ensures var (v1, ps1) := Parameters(m1, v);
            Parameters(m2, v1) == (v1, ps1)
    ensures var (v1, ts1) := ThrowsList(m1, v);
            ThrowsList(m2, v1) == (v1, ts1)
  {
  }

  /** The cache goes stale: a parameter added to the definition after the
      first `parameters()` call is not in the list any later call answers. */
  lemma ParametersStaleAfterFirstCall(m: CodeModel, v: ExecutableTypeView, t: Type, name: Name)
    requires v.executableType.definition < |m.executables| && !t.IsVoid()
    ensures var xid := v.executableType.definition;
            var (v1, ps1) := Parameters(m, v);
            var s := AddParameter(m, xid, t, name);
            && s.outcome.Success?
            && Parameters(s.model, v1).1 == ps1
            && (v.parametersCache.None? ==>
                  |Parameters(s.model, v1).1| + 1 == |SubstitutedParameters(s.model, v.executableType)|)
  {
  }

  // ---------------------------------------------------------------------
  // Object types: the member list.
  // ---------------------------------------------------------------------

  /** An object type with its methods cache. */
  datatype ObjectTypeView = ObjectTypeView(objectType: ObjectType, methodsCache: Option<seq<Type>>)

  /** The handles of an object type's definition's methods, all allocated. */
  predicate MethodsAllocated(m: CodeModel, o: ObjectType) {
    o.definition < |m.objects|
    && forall j :: 0 <= j < |m.objects[o.definition].methods| ==> m.objects[o.definition].methods[j] < |m.executables|
  }

  lemma ValidMethodsAllocated(m: CodeModel, o: ObjectType)
    requires Valid(m) && o.definition < |m.objects|
    ensures MethodsAllocated(m, o)
  {
    assert MembersAllocated(m.objects[o.definition], |m.objects|, |m.executables|, |m.fields|);
  }

  /** Position of the first static executable in `ds`, or `|ds|`. */
  function FirstStatic(m: CodeModel, ds: seq<ExecId>): (k: nat)
    requires forall j :: 0 <= j < |ds| ==> ds[j] < |m.executables|
    ensures k <= |ds|
    ensures forall j :: 0 <= j < k ==> !m.executables[ds[j]].isStatic
    ensures k < |ds| ==> m.executables[ds[k]].isStatic
    decreases |ds|
  {
    if |ds| == 0 then 0
    else if m.executables[ds[0]].isStatic then 0
    else 1 + FirstStatic(m, ds[1..])
  }

  /** The type of executable `d` as a member of `o`: its raw type
      relative to the instance `o`, captured by it. */
  predicate IsMemberType(t: Type, d: ExecId, o: ObjectType) {
    t.Executable? && t.executableType == ExecutableType(d, [], Some(o))
  }

  const StaticMemberMessage := "Type is static memeber, no parent is expected."

  /** What the fill loop guarantees, for `k` the position of the first
      static method: the member types of the first `k` methods follow `acc`,
      and an error is reported exactly when a static method was reached. */
  predicate FillFacts(m: CodeModel, o: ObjectType, ds: seq<ExecId>, acc: seq<Type>, r: (seq<Type>, Option<Error>))
    requires forall j :: 0 <= j < |ds| ==> ds[j] < |m.executables|
  {
    var k := FirstStatic(m, ds);
    && |r.0| == |acc| + k && r.0[..|acc|] == acc
    && (forall j :: 0 <= j < k ==> IsMemberType(r.0[|acc| + j], ds[j], o))
    && (r.1.None? <==> k == |ds|)
    && (r.1.Some? ==> r.1.value == Unsupported(StaticMemberMessage))
  }

  /** The loop of `methods()` as written: it appends `rawType(parent)` of
      each method to `acc` in order and stops at the first failure. The list
      filled so far is returned in either case, because the source fills the
      cached list itself. */
  function FillMethods(m: CodeModel, o: ObjectType, ds: seq<ExecId>, acc: seq<Type>): (r: (seq<Type>, Option<Error>))
    requires forall j :: 0 <= j < |ds| ==> ds[j] < |m.executables|
    ensures FillFacts(m, o, ds, acc, r)
    decreases |ds|
  {
    if |ds| == 0 then (acc, None)
    else match RawTypeIn(m, ds[0], Object(o))
      case Failure(e) => (acc, Some(e))
      case Success(t) =>
        var r := FillMethods(m, o, ds[1..], acc + [t]);
        FillStep(m, o, ds, acc, t, r);
        r
  }

  /** One iteration of the fill loop: an instance method's member type,
      followed by the rest of the loop. */
  lemma FillStep(m: CodeModel, o: ObjectType, ds: seq<ExecId>, acc: seq<Type>, t: Type, r: (seq<Type>, Option<Error>))
    requires |ds| > 0 && forall j :: 0 <= j < |ds| ==> ds[j] < |m.executables|
    requires !m.executables[ds[0]].isStatic && IsMemberType(t, ds[0], o)
    requires FillFacts(m, o, ds[1..], acc + [t], r)
    ensures FillFacts(m, o, ds, acc, r)
  {
    var k := FirstStatic(m, ds);
    assert k == 1 + FirstStatic(m, ds[1..]);
    assert r.0[..|acc| + 1] == acc + [t];
    assert r.0[..|acc|] == (acc + [t])[..|acc|];
    forall j | 0 <= j < k
      ensures IsMemberType(r.0[|acc| + j], ds[j], o)
    {
      if j == 0 {
        assert r.0[|acc|] == (acc + [t])[|acc|];
      } else {
        assert ds[1..][j - 1] == ds[j];
      }
    }
  }

  /** `ObjectTypeDetails.methods()` as written. On the first call the
      cached list is installed before it is filled, and `rawType(parent)`
      rejects a static method; so the first call fails as soon as it reaches
      a static method, and the partially filled list stays cached. */
  function MethodsAsWritten(m: CodeModel, v: ObjectTypeView): (r: (ObjectTypeView, Result<seq<Type>>))
    requires MethodsAllocated(m, v.objectType)
    ensures r.0.objectType == v.objectType && r.0.methodsCache.Some?
    ensures v.methodsCache.Some? ==> r == (v, Success(v.methodsCache.value))
    ensures v.methodsCache.None? ==>
              var ds := m.objects[v.objectType.definition].methods;
              var k := FirstStatic(m, ds);
              && |r.0.methodsCache.value| == k
              && (forall j :: 0 <= j < k ==> IsMemberType(r.0.methodsCache.value[j], ds[j], v.objectType))
              && (k == |ds| ==> r.1 == Success(r.0.methodsCache.value))
              && (k < |ds| ==> r.1 == Failure(Unsupported(StaticMemberMessage)))
  {
    match v.methodsCache
    case Some(c) => (v, Success(c))
    case None =>
      var filled := FillMethods(m, v.objectType, m.objects[v.objectType.definition].methods, []);
      var v' := v.(methodsCache := Some(filled.0));
      (v', if filled.1.None? then Success(filled.0) else Failure(filled.1.value))
  }

  /** The defect: for a definition with a static method, the first call
      fails and the second succeeds with a list missing that method and
      every method after it. */
  lemma MethodsAsWrittenCachesPartialList(m: CodeModel, v: ObjectTypeView)
    requires MethodsAllocated(m, v.objectType) && v.methodsCache.None?
    requires exists j :: 0 <= j < |m.objects[v.objectType.definition].methods|
                         && m.executables[m.objects[v.objectType.definition].methods[j]].isStatic
    ensures var (v1, r1) := MethodsAsWritten(m, v);
            var (v2, r2) := MethodsAsWritten(m, v1);
            && r1.Failure?
            && r2.Success?
            && |r2.value| < |ViewMethods(m, v.objectType.definition)|
  {
    var ds := m.objects[v.objectType.definition].methods;
    var j :| 0 <= j < |ds| && m.executables[ds[j]].isStatic;
    assert FirstStatic(m, ds) <= j;
  }

  /** The member type of each method: `rawType()` for a static method,
      `rawType(parent)` for an instance method. */
  function MemberType(m: CodeModel, d: ExecId, o: ObjectType): (r: Type)
    requires d < |m.executables|
    ensures r.IsExecutable() && r.executableType.definition == d && |r.executableType.typeArguments| == 0
    ensures r.executableType.capturedEnclosing.None? <==> m.executables[d].isStatic
    ensures !m.executables[d].isStatic ==> IsMemberType(r, d, o)
  {
    match RawType(m, d)
    case Success(t) => t
    case Failure(_) =>
      match RawTypeIn(m, d, Object(o))
      case Success(t) => t
      case Failure(_) => assert false; Void
  }

  /** `methods()` as evidently intended: each method contributes its
      member type, static or not, and the list is cached only once it is
      complete. */
  function MethodsCorrected(m: CodeModel, v: ObjectTypeView): (r: (ObjectTypeView, seq<Type>))
    requires MethodsAllocated(m, v.objectType)
    ensures r.0.objectType == v.objectType && r.0.methodsCache == Some(r.1)
    ensures v.methodsCache.Some? ==> r == (v, v.methodsCache.value)
    ensures v.methodsCache.None? ==>
              var ds := m.objects[v.objectType.definition].methods;
              && |r.1| == |ds|
              && forall j :: 0 <= j < |ds| ==> r.1[j] == MemberType(m, ds[j], v.objectType)
  {
    match v.methodsCache
    case Some(c) => (v, c)
    case None =>
      var ds := m.objects[v.objectType.definition].methods;
      var ts := seq(|ds|, j requires 0 <= j < |ds| => MemberType(m, ds[j], v.objectType));
      (v.(methodsCache := Some(ts)), ts)
  }

  /** With the correction, the first call answers one entry per method in
      order, and later calls answer the same list even after more methods
      are added to the definition: the list reflects the definition as of
      the first call. This relies on callers never changing the list they
      are handed, which the source shares with its cache. */
  lemma MethodsCorrectedStable(m: CodeModel, v: ObjectTypeView, name: Name)
    requires Valid(m) && v.objectType.definition < |m.objects| && v.methodsCache.None?
    ensures MethodsAllocated(m, v.objectType)
    ensures var (v1, ts1) := MethodsCorrected(m, v);
            var s := Method(m, v.objectType.definition, name);
            && |ts1| == |ViewMethods(m, v.objectType.definition)|
            && MethodsAllocated(s.model, v.objectType)
            && MethodsCorrected(s.model, v1) == (v1, ts1)
            && |ts1| < |ViewMethods(s.model, v.objectType.definition)|
  {
    ValidMethodsAllocated(m, v.objectType);
    var s := Method(m, v.objectType.definition, name);
    ValidMethodsAllocated(s.model, v.objectType);
  }

  /** Where the definition has no static method the two readings agree. */
  lemma MethodsAgreeWithoutStatics(m: CodeModel, v: ObjectTypeView)
    requires MethodsAllocated(m, v.objectType) && v.methodsCache.None?
    requires forall j :: 0 <= j < |m.objects[v.objectType.definition].methods| ==>
               !m.executables[m.objects[v.objectType.definition].methods[j]].isStatic
    ensures MethodsAsWritten(m, v) == (MethodsCorrected(m, v).0, Success(MethodsCorrected(m, v).1))
  {
    var ds := m.objects[v.objectType.definition].methods;
    var a := MethodsAsWritten(m, v).0.methodsCache.value;
    var c := MethodsCorrected(m, v).1;
    assert FirstStatic(m, ds) == |ds|;
    assert |a| == |c|;
    forall j | 0 <= j < |ds|
      ensures a[j] == c[j]
    {
      assert IsMemberType(a[j], ds[j], v.objectType);
      assert IsMemberType(c[j], ds[j], v.objectType);
    }
    assert a == c;
  }

  // ---------------------------------------------------------------------
  // Stubs of this snapshot.
  // ---------------------------------------------------------------------

  /** `ObjectTypeDetails.containsWildcards()`: always throws in this
      snapshot. */
  function ObjectContainsWildcardsStub(o: ObjectType): (r: Result<bool>)
    ensures r.Failure? && r.error == Unsupported("Not supported yet.")
  {
    Failure(Unsupported("Not supported yet."))
  }

  /** `ObjectTypeDetails.inEnvironment(environment)`: always throws in this
      snapshot. */
  function ObjectInEnvironmentStub(o: ObjectType, env: Environment): (r: Result<ObjectType>)
    ensures r.Failure? && r.error == Unsupported("Not supported yet.")
  {
    Failure(Unsupported("Not supported yet."))
  }
}
