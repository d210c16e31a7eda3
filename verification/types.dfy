/** The type algebra of the code model: a closed set of kinds, the placement
    predicates builders use to reject illegal positions, the kind-checked
    details accessors, structural substitution of type variables and the
    flattening of intersection types.

    The Java `Type` is an abstract class with one private subclass per kind
    and one `get...Details()` accessor per kind that throws on every other
    kind. Here it is one datatype with a variant per kind; the accessors are
    kept as `Result`-returning functions so that their failure on the wrong
    kind is stated, not assumed away.
 */
module Types {
  import opened Wrappers

  /** Type-variable and member names. */
  type Name = string

  /** Handle of an object definition (class, interface, enum, annotation)
      in the code-model arena. */
  type ObjId = nat

  /** Handle of an executable definition (method or constructor) in the
      code-model arena. */
  type ExecId = nat

  /** A name-to-type binding used for substitution (the source's
      `Substitution` / `TypeEnvironment`). */
  type Environment = map<Name, Type>

  /** `Type.Kind`, extended with the executable kind that the builders of the
      same code base create through `Type.executable`. */
  datatype Kind =
    | VoidKind
    | ObjectKind
    | PrimitiveKind
    | ArrayKind
    | TypeVariableKind
    | WildcardKind
    | IntersectionKind
    | ExecutableKind

  datatype PrimitiveType = Byte | Short | Int | Long | Float | Double | Char | Boolean

  datatype BoundKind = Extends | Super

  /** Details of an object type: the definition it instantiates, its own type
      arguments (empty for a raw type) and the instance type of the enclosing
      definition whose type variables it captures (`None` for top-level and
      static members). */
  datatype ObjectType = ObjectType(
    definition: ObjId,
    typeArguments: seq<Type>,
    capturedEnclosing: Option<ObjectType>)

  /** Details of an executable (method or constructor) type; the same three
      parts as an object type, but instantiating an executable definition. */
  datatype ExecutableType = ExecutableType(
    definition: ExecId,
    typeArguments: seq<Type>,
    capturedEnclosing: Option<ObjectType>)

  datatype Type =
    | Void
    | Primitive(primitive: PrimitiveType)
    | Array(component: Type)
    | Variable(name: Name)
    | Wildcard(boundKind: BoundKind, bound: Type)
    | Intersection(bounds: seq<ObjectType>)
    | Object(objectType: ObjectType)
    | Executable(executableType: ExecutableType)
  {
    function KindOf(): Kind {
      match this
      case Void => VoidKind
      case Primitive(_) => PrimitiveKind
      case Array(_) => ArrayKind
      case Variable(_) => TypeVariableKind
      case Wildcard(_, _) => WildcardKind
      case Intersection(_) => IntersectionKind
      case Object(_) => ObjectKind
      case Executable(_) => ExecutableKind
    }

    predicate IsVoid() { KindOf() == VoidKind }
    predicate IsObjectType() { KindOf() == ObjectKind }
    predicate IsPrimitive() { KindOf() == PrimitiveKind }
    predicate IsArray() { KindOf() == ArrayKind }
    predicate IsTypeVariable() { KindOf() == TypeVariableKind }
    predicate IsWildcard() { KindOf() == WildcardKind }
    predicate IsIntersection() { KindOf() == IntersectionKind }
    predicate IsExecutable() { KindOf() == ExecutableKind }

    /** May appear between angle brackets as a type argument: never void,
        primitive, intersection or executable. */
    function CanBeTypeArgument(): (r: bool)
      ensures r <==> !(IsVoid() || IsPrimitive() || IsIntersection() || IsExecutable())
    {
      IsArray() || IsWildcard() || IsObjectType() || IsTypeVariable()
    }

    /** May be the declared type of a field, parameter or local variable:
        never void, wildcard, intersection or executable. */
    function CanBeDeclaredVariableType(): (r: bool)
      ensures r <==> !(IsVoid() || IsWildcard() || IsIntersection() || IsExecutable())
    {
      IsArray() || IsObjectType() || IsPrimitive() || IsTypeVariable()
    }

    /** May be a method's result type: a declarable variable type, or void. */
    function CanBeMethodResult(): (r: bool)
      ensures r <==> CanBeDeclaredVariableType() || IsVoid()
    {
      IsArray() || IsObjectType() || IsPrimitive() || IsTypeVariable() || IsVoid()
    }

    /** May bound a type variable: never void, primitive, array, wildcard or
        executable. */
    function CanBeTypeVariableBound(): (r: bool)
      ensures r <==> !(IsVoid() || IsPrimitive() || IsArray() || IsWildcard() || IsExecutable())
    {
      IsIntersection() || IsObjectType() || IsTypeVariable()
    }
  }

  /** The kind test that corresponds to `k`. */
  predicate HasKind(t: Type, k: Kind) {
    match k
    case VoidKind => t.IsVoid()
    case ObjectKind => t.IsObjectType()
    case PrimitiveKind => t.IsPrimitive()
    case ArrayKind => t.IsArray()
    case TypeVariableKind => t.IsTypeVariable()
    case WildcardKind => t.IsWildcard()
    case IntersectionKind => t.IsIntersection()
    case ExecutableKind => t.IsExecutable()
  }

  /** Kinds are mutually exclusive and exhaustive: of all the kind tests,
      exactly the one for `t`'s own kind holds. */
  lemma ExactlyOneKind(t: Type)
    ensures HasKind(t, t.KindOf())
    ensures forall k: Kind :: HasKind(t, k) ==> k == t.KindOf()
  {
  }

  /** The placement rules: a method result is a declarable variable type or
      void; void, wildcard and intersection types are never declarable;
      void, primitive and intersection types are never type arguments; and
      exactly intersection, object and variable types may bound a type
      variable. */
  lemma PlacementRules(t: Type)
    ensures t.CanBeMethodResult() <==> t.CanBeDeclaredVariableType() || t.IsVoid()
    ensures t.IsVoid() || t.IsWildcard() || t.IsIntersection() ==> !t.CanBeDeclaredVariableType()
    ensures t.IsVoid() || t.IsPrimitive() || t.IsIntersection() ==> !t.CanBeTypeArgument()
    ensures t.CanBeTypeVariableBound() <==> t.IsIntersection() || t.IsObjectType() || t.IsTypeVariable()
  {
  }

  /** An executable type is never a legal value type anywhere. */
  lemma ExecutableNeverPlaced(t: Type)
    requires t.IsExecutable()
    ensures !t.CanBeTypeArgument() && !t.CanBeDeclaredVariableType()
    ensures !t.CanBeMethodResult() && !t.CanBeTypeVariableBound()
  {
  }

  // ---------------------------------------------------------------------
  // Details accessors: each succeeds on its own kind only.
  // ---------------------------------------------------------------------

  function GetObjectDetails(t: Type): (r: Result<ObjectType>)
    ensures r.Success? <==> t.IsObjectType()
    ensures r.Success? ==> Object(r.value) == t
    ensures r.Failure? ==> r.error == Unsupported("Object type expected")
  {
    if t.Object? then Success(t.objectType) else Failure(Unsupported("Object type expected"))
  }

  function GetWildcardDetails(t: Type): (r: Result<(BoundKind, Type)>)
    ensures r.Success? <==> t.IsWildcard()
    ensures r.Success? ==> Wildcard(r.value.0, r.value.1) == t
    ensures r.Failure? ==> r.error == Unsupported("Wildcard type expected")
  {
    if t.Wildcard? then Success((t.boundKind, t.bound)) else Failure(Unsupported("Wildcard type expected"))
  }

  function GetPrimitiveDetails(t: Type): (r: Result<PrimitiveType>)
    ensures r.Success? <==> t.IsPrimitive()
    ensures r.Success? ==> Primitive(r.value) == t
    ensures r.Failure? ==> r.error == Unsupported("Primitive type expected")
  {
    if t.Primitive? then Success(t.primitive) else Failure(Unsupported("Primitive type expected"))
  }

  function GetArrayDetails(t: Type): (r: Result<Type>)
    ensures r.Success? <==> t.IsArray()
    ensures r.Success? ==> Array(r.value) == t
    ensures r.Failure? ==> r.error == Unsupported("Array type expected")
  {
    if t.Array? then Success(t.component) else Failure(Unsupported("Array type expected"))
  }

  function GetVariableDetails(t: Type): (r: Result<Name>)
    ensures r.Success? <==> t.IsTypeVariable()
    ensures r.Success? ==> Variable(r.value) == t
    ensures r.Failure? ==> r.error == Unsupported("Type variable expected")
  {
    if t.Variable? then Success(t.name) else Failure(Unsupported("Type variable expected"))
  }

  function GetIntersectionDetails(t: Type): (r: Result<seq<ObjectType>>)
    ensures r.Success? <==> t.IsIntersection()
    ensures r.Success? ==> Intersection(r.value) == t
    ensures r.Failure? ==> r.error == Unsupported("Intersection type expected")
  {
    if t.Intersection? then Success(t.bounds) else Failure(Unsupported("Intersection type expected"))
  }

  function GetExecutableDetails(t: Type): (r: Result<ExecutableType>)
    ensures r.Success? <==> t.IsExecutable()
    ensures r.Success? ==> Executable(r.value) == t
    ensures r.Failure? ==> r.error == Unsupported("Executable type expected")
  {
    if t.Executable? then Success(t.executableType) else Failure(Unsupported("Executable type expected"))
  }

  /** The `containsWildcards` of `Type` in this snapshot: an unimplemented
      stub that always throws. */
  function ContainsWildcardsStub(t: Type): (r: Result<bool>)
    ensures r == Failure(Unsupported("Not supported yet"))
  {
    Failure(Unsupported("Not supported yet"))
  }

  // ---------------------------------------------------------------------
  // Wildcard occurrence (what the builders' checks evidently mean).
  // ---------------------------------------------------------------------

  /** `t` mentions a wildcard anywhere inside it. */
  predicate ContainsWildcards(t: Type) {
    match t
    case Wildcard(_, _) => true
    case Array(c) => ContainsWildcards(c)
    case Intersection(bs) => exists i :: 0 <= i < |bs| && ObjectContainsWildcards(bs[i])
    case Object(o) => ObjectContainsWildcards(o)
    case Executable(x) =>
      (exists i :: 0 <= i < |x.typeArguments| && ContainsWildcards(x.typeArguments[i]))
      || (x.capturedEnclosing.Some? && ObjectContainsWildcards(x.capturedEnclosing.value))
    case _ => false
  }

  predicate ObjectContainsWildcards(o: ObjectType) {
    (exists i :: 0 <= i < |o.typeArguments| && ContainsWildcards(o.typeArguments[i]))
    || (o.capturedEnclosing.Some? && ObjectContainsWildcards(o.capturedEnclosing.value))
  }

  // ---------------------------------------------------------------------
  // Substitution.
  // ---------------------------------------------------------------------

  /** `Type.substitute`: a type variable becomes its binding, or stays as it
      is when unbound; object, array, intersection and wildcard types are
      rebuilt from their substituted parts; every other kind (void,
      primitive, executable) is returned as it is. Substitution never
      fails. */
  function Substitute(t: Type, env: Environment): (r: Type)
    ensures !t.IsTypeVariable() ==> r.KindOf() == t.KindOf()
    ensures t.IsVoid() || t.IsPrimitive() ==> r == t
  {
    match t
    case Variable(name) => if name in env then env[name] else t
    case Object(o) => Object(SubstituteObject(o, env))
    case Array(c) => Array(Substitute(c, env))
    case Intersection(bs) => Intersection(seq(|bs|, i requires 0 <= i < |bs| => SubstituteObject(bs[i], env)))
    case Wildcard(k, b) => Wildcard(k, Substitute(b, env))
    case _ => t
  }

  /** Substitution inside an object type: its type arguments and its captured
      enclosing type; the definition is kept. */
  function SubstituteObject(o: ObjectType, env: Environment): (r: ObjectType)
    ensures r.definition == o.definition
    ensures |r.typeArguments| == |o.typeArguments|
    ensures r.capturedEnclosing.Some? <==> o.capturedEnclosing.Some?
  {
    ObjectType(
      o.definition,
      seq(|o.typeArguments|, i requires 0 <= i < |o.typeArguments| => Substitute(o.typeArguments[i], env)),
      match o.capturedEnclosing
      case None => None
      case Some(e) => Some(SubstituteObject(e, env)))
  }

  /** The type variables that substitution can reach in `t`. */
  function FreeVariables(t: Type): set<Name> {
    match t
    case Variable(name) => {name}
    case Object(o) => ObjectFreeVariables(o)
    case Array(c) => FreeVariables(c)
    case Intersection(bs) => set i, n | 0 <= i < |bs| && n in ObjectFreeVariables(bs[i]) :: n
    case Wildcard(_, b) => FreeVariables(b)
    case _ => {}
  }

  function ObjectFreeVariables(o: ObjectType): set<Name> {
    (set i, n | 0 <= i < |o.typeArguments| && n in FreeVariables(o.typeArguments[i]) :: n)
    + (match o.capturedEnclosing
       case None => {}
       case Some(e) => ObjectFreeVariables(e))
  }

  /** Substituting a variable yields the environment's binding for its name
      when there is one, and the variable itself otherwise. */
  lemma SubstituteVariable(name: Name, env: Environment)
    ensures name in env ==> Substitute(Variable(name), env) == env[name]
    ensures name !in env ==> Substitute(Variable(name), env) == Variable(name)
  {
  }

  /** A type none of whose reachable variables is bound by `env` is left
      unchanged by substitution. */
  lemma {:induction false} SubstituteClosed(t: Type, env: Environment)
    requires FreeVariables(t) !! env.Keys
    ensures Substitute(t, env) == t
    decreases t, 1
  {
    match t
    case Variable(name) =>
      assert name in FreeVariables(t);
    case Object(o) =>
      SubstituteObjectClosed(o, env);
    case Array(c) =>
      SubstituteClosed(c, env);
    case Intersection(bs) =>
      var bs' := seq(|bs|, i requires 0 <= i < |bs| => SubstituteObject(bs[i], env));
      forall i | 0 <= i < |bs|
        ensures bs'[i] == bs[i]
      {
        assert ObjectFreeVariables(bs[i]) <= FreeVariables(t);
        SubstituteObjectClosed(bs[i], env);
      }
      assert bs' == bs;
    case Wildcard(_, b) =>
      SubstituteClosed(b, env);
    case _ =>
  }

  lemma {:induction false} SubstituteObjectClosed(o: ObjectType, env: Environment)
    requires ObjectFreeVariables(o) !! env.Keys
    ensures SubstituteObject(o, env) == o
    decreases o, 0
  {
    var args := o.typeArguments;
    var args' := seq(|args|, i requires 0 <= i < |args| => Substitute(args[i], env));
    forall i | 0 <= i < |args|
      ensures args'[i] == args[i]
    {
      assert FreeVariables(args[i]) <= ObjectFreeVariables(o);
      SubstituteClosed(args[i], env);
    }
    assert args' == args;
    match o.capturedEnclosing
    case None =>
    case Some(e) =>
      SubstituteObjectClosed(e, env);
  }

  /** The empty environment changes nothing. */
  lemma SubstituteEmpty(t: Type)
    ensures Substitute(t, map[]) == t
  {
    SubstituteClosed(t, map[]);
  }

  // ---------------------------------------------------------------------
  // Intersections.
  // ---------------------------------------------------------------------

  /** `toListOfIntersectedTypes`: a non-intersection type is the one-element
      list of itself; an intersection lists its intersected object types in
      order. */
  function ToListOfIntersectedTypes(t: Type): (r: seq<Type>)
    ensures !t.IsIntersection() ==> r == [t]
    ensures t.IsIntersection() ==> |r| == |t.bounds|
    ensures t.IsIntersection() ==> forall i :: 0 <= i < |r| ==> r[i].IsObjectType() && r[i].objectType == t.bounds[i]
  {
    if !t.IsIntersection() then [t]
    else seq(|t.bounds|, i requires 0 <= i < |t.bounds| => Object(t.bounds[i]))
  }

  /** The flattened list determines the type it came from: re-intersecting
      the listed object types of an intersection gives it back. */
  lemma IntersectedTypesRoundTrip(t: Type)
    requires t.IsIntersection()
    ensures var r := ToListOfIntersectedTypes(t);
            Intersection(seq(|r|, i requires 0 <= i < |r| => r[i].objectType)) == t
  {
    var r := ToListOfIntersectedTypes(t);
    assert seq(|r|, i requires 0 <= i < |r| => r[i].objectType) == t.bounds;
  }
}
