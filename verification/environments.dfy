/** The definition environment of an instantiated generic type
    (`GenericTypeDetails.definitionEnvironment`): the environment of the
    captured enclosing type, if any, overlaid with the definition's own type
    parameters bound pairwise to the type's own type arguments.

    Type parameters live in the definitions, which this module does not
    see; callers pass the lookup from a definition handle to the names of
    its own type parameters.
 */
module Environments {
  import opened Wrappers
  import opened Types

  function Min(a: nat, b: nat): nat {
    if a <= b then a else b
  }

  /** No name occurs twice. */
  predicate Distinct(names: seq<Name>) {
    forall i, j :: 0 <= i < j < |names| ==> names[i] != names[j]
  }

  /** `names[i]` for one of the first `n` positions. */
  predicate AmongFirst(k: Name, names: seq<Name>, n: nat) {
    exists i :: 0 <= i < n && i < |names| && names[i] == k
  }

  /** What one binding pass guarantees: the names bound, the bindings left
      from `base`, and (for distinct parameters) the pairwise bindings. */
  predicate BindFacts(base: Environment, parameters: seq<Name>, arguments: seq<Type>, r: Environment) {
    var n := Min(|parameters|, |arguments|);
    && r.Keys == base.Keys + (set i | 0 <= i < n :: parameters[i])
    && (forall k :: k in base && !AmongFirst(k, parameters, n) ==> r[k] == base[k])
    && (Distinct(parameters) ==> forall i :: 0 <= i < n ==> r[parameters[i]] == arguments[i])
  }

  /** The binding loop of `definitionEnvironment`: starting from `base`,
      `parameters[i]` is bound to `arguments[i]` for as long as both lists
      last; surplus parameters or arguments are ignored, and a later binding
      of a name replaces an earlier one. */
  function Bind(base: Environment, parameters: seq<Name>, arguments: seq<Type>): (r: Environment)
    ensures BindFacts(base, parameters, arguments, r)
    decreases |parameters|
  {
    if |parameters| == 0 || |arguments| == 0 then base
    else
      var rest := Bind(base[parameters[0] := arguments[0]], parameters[1..], arguments[1..]);
      BindStep(base, parameters, arguments, rest);
      rest
  }

  /** One step of `Bind`: the facts for the first binding followed by the
      rest of the loop. */
  lemma BindStep(base: Environment, parameters: seq<Name>, arguments: seq<Type>, rest: Environment)
    requires |parameters| > 0 && |arguments| > 0
    requires BindFacts(base[parameters[0] := arguments[0]], parameters[1..], arguments[1..], rest)
    ensures BindFacts(base, parameters, arguments, rest)
  {
    var n := Min(|parameters|, |arguments|);
    var ps', as' := parameters[1..], arguments[1..];
    assert Min(|ps'|, |as'|) == n - 1;
    assert AmongFirst(parameters[0], parameters, n);
    forall k | AmongFirst(k, ps', n - 1)
      ensures AmongFirst(k, parameters, n)
    {
      var i :| 0 <= i < n - 1 && i < |ps'| && ps'[i] == k;
      assert parameters[i + 1] == k;
    }
    var bound := set i | 0 <= i < n :: parameters[i];
    assert bound == {parameters[0]} + (set i | 0 <= i < n - 1 :: ps'[i]) by {
      forall k | k in bound
        ensures k in {parameters[0]} + (set i | 0 <= i < n - 1 :: ps'[i])
      {
        var i :| 0 <= i < n && parameters[i] == k;
        if i > 0 {
          assert ps'[i - 1] == k;
        }
      }
    }
    if Distinct(parameters) {
      assert Distinct(ps');
      forall i | 0 <= i < n
        ensures rest[parameters[i]] == arguments[i]
      {
        if i > 0 {
          assert ps'[i - 1] == parameters[i];
        } else {
          assert !AmongFirst(parameters[0], ps', n - 1);
        }
      }
    }
  }

  lemma BindUnfold(env: Environment, parameters: seq<Name>, arguments: seq<Type>)
    requires |parameters| > 0 && |arguments| > 0
    ensures Bind(env, parameters, arguments)
            == Bind(env[parameters[0] := arguments[0]], parameters[1..], arguments[1..])
  {
  }

  /** The same loop written as the source writes it, with two cursors
      advanced together; it computes exactly `Bind`. */
  method BindLoop(base: Environment, parameters: seq<Name>, arguments: seq<Type>) returns (env: Environment)
    ensures env == Bind(base, parameters, arguments)
  {
    env := base;
    var i := 0;
    while i < |parameters| && i < |arguments|
      invariant 0 <= i <= Min(|parameters|, |arguments|)
      invariant Bind(env, parameters[i..], arguments[i..]) == Bind(base, parameters, arguments)
    {
      BindUnfold(env, parameters[i..], arguments[i..]);
      assert parameters[i..][1..] == parameters[i + 1..];
      assert arguments[i..][1..] == arguments[i + 1..];
      env := env[parameters[i] := arguments[i]];
      i := i + 1;
    }
  }

  /** The environment a type's captured enclosing type contributes: empty
      when nothing is captured. */
  function EnclosingEnvironment(enclosing: Option<ObjectType>, parametersOf: ObjId -> seq<Name>): (r: Environment)
    ensures enclosing.None? ==> r == map[]
    decreases enclosing, 1
  {
    match enclosing
    case None => map[]
    case Some(e) => ObjectEnvironment(e, parametersOf)
  }

  /** `definitionEnvironment` of an object type. `parametersOf` gives the
      names of each object definition's own type parameters. */
  function ObjectEnvironment(o: ObjectType, parametersOf: ObjId -> seq<Name>): (r: Environment)
    ensures o.capturedEnclosing.None? && |o.typeArguments| == 0 ==> r == map[]
    ensures var base := EnclosingEnvironment(o.capturedEnclosing, parametersOf);
            var ps := parametersOf(o.definition);
            && r.Keys == base.Keys + (set i | 0 <= i < Min(|ps|, |o.typeArguments|) :: ps[i])
            && (forall k :: k in base && !AmongFirst(k, ps, Min(|ps|, |o.typeArguments|)) ==> r[k] == base[k])
            && (Distinct(ps) ==> forall i :: 0 <= i < Min(|ps|, |o.typeArguments|) ==> r[ps[i]] == o.typeArguments[i])
    decreases o, 0
  {
    Bind(EnclosingEnvironment(o.capturedEnclosing, parametersOf), parametersOf(o.definition), o.typeArguments)
  }

  /** `definitionEnvironment` of an executable type: its captured enclosing
      object type provides the base, its own method-level type parameters
      the overlay. */
  function ExecutableEnvironment(
    x: ExecutableType,
    objectParametersOf: ObjId -> seq<Name>,
    executableParametersOf: ExecId -> seq<Name>): (r: Environment)
    ensures var base := EnclosingEnvironment(x.capturedEnclosing, objectParametersOf);
            var ps := executableParametersOf(x.definition);
            && r.Keys == base.Keys + (set i | 0 <= i < Min(|ps|, |x.typeArguments|) :: ps[i])
            && (forall k :: k in base && !AmongFirst(k, ps, Min(|ps|, |x.typeArguments|)) ==> r[k] == base[k])
            && (Distinct(ps) ==> forall i :: 0 <= i < Min(|ps|, |x.typeArguments|) ==> r[ps[i]] == x.typeArguments[i])
  {
    Bind(EnclosingEnvironment(x.capturedEnclosing, objectParametersOf),
         executableParametersOf(x.definition), x.typeArguments)
  }

  /** With nothing captured and no type arguments (a raw top-level type) the
      environment is empty. */
  lemma RawTopLevelEnvironmentEmpty(o: ObjectType, parametersOf: ObjId -> seq<Name>)
    requires o.capturedEnclosing.None? && |o.typeArguments| == 0
    ensures ObjectEnvironment(o, parametersOf) == map[]
  {
  }

  /** A raw application (no type arguments) adds nothing to the environment
      of its enclosing type. */
  lemma RawEnvironmentIsBase(o: ObjectType, parametersOf: ObjId -> seq<Name>)
    requires |o.typeArguments| == 0
    ensures ObjectEnvironment(o, parametersOf) == EnclosingEnvironment(o.capturedEnclosing, parametersOf)
  {
  }

  /** Capture chaining: a variable that the inner type's own parameters do not
      bind resolves, through the inner type's environment, to what the
      enclosing instance binds it to. For `Outer<String>.Inner`, the outer
      parameter `X` substitutes to `String`. */
  lemma CaptureChaining(o: ObjectType, parametersOf: ObjId -> seq<Name>, x: Name)
    requires o.capturedEnclosing.Some?
    requires x in ObjectEnvironment(o.capturedEnclosing.value, parametersOf)
    requires x !in parametersOf(o.definition)
    ensures Substitute(Variable(x), ObjectEnvironment(o, parametersOf))
         == ObjectEnvironment(o.capturedEnclosing.value, parametersOf)[x]
  {
  }
}
