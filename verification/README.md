# Generic type algebra and declaration builders of `codemodel`

A Dafny model of the core of the `codemodel` library of adt4j: the library
with which the annotation processor builds a model of Java declarations
(classes, interfaces, fields, methods, constructors and their generic
types) before rendering them as source text.

What is modelled:

- **The type algebra** (`types.dfy`, module `Types`). `Type` has one variant
  per kind (void, object, primitive, array, type variable, wildcard,
  intersection), plus the executable kind that the builders create. The
  module covers the kind tests and the placement predicates. The
  kind-checked details accessors are `Result`-returning functions that fail
  with `UnsupportedOperationException`'s message on every other kind. It
  also covers structural substitution and the flattening of intersections.
- **Definition environments** (`environments.dfy`, module `Environments`).
  `definitionEnvironment` first takes the captured enclosing type's
  environment. It then binds the definition's own type parameters to the
  type's arguments, pairwise, up to the shorter list.
- **The declaration graph** (`arena.dfy`, module `Arena`). Definitions refer
  to each other, cyclically too, through handles that escape before a
  builder is finished. So all object definitions, executables and fields
  live in one `CodeModel` value and are referred to by index. The
  `definition()` views of the three object builders read the current entry.
  Entry 0 is the top object type.
- **The builders**:
  - `ObjectDefinitionBuilder`, `ClassBuilder` and `InterfaceBuilder`
    (`object_builders.dfy`);
  - `ExecutableBuilder` (`executable_builders.dfy`);
  - `FieldBuilder` (`fields.dfy`).

  Every mutator returns a `Step`: the arena after the call together with the
  value returned or the exception thrown. Each contract states:
  - which check fails first and with which message;
  - whether a failed call changes anything;
  - what a successful call appends or records;
  - that the arena invariant `Valid` is preserved.
- **Cached views** (`type_views.dfy`, module `TypeViews`):
  - `ExecutableType.parameters` and `throwsList`, which are substituted and
    memoised;
  - `ObjectTypeDetails.methods`, which is memoised;
  - the two `ObjectTypeDetails` stubs.

  A cache is a field of the view value, and each accessor returns the
  updated view.

Exceptions become `Wrappers.Error` values carrying the source's message:
- `ModelError` stands for `CodeModelException`;
- `Unsupported` stands for `UnsupportedOperationException`;
- `IllegalState` stands for `IllegalStateException`.

The messages are kept verbatim, including the source's spellings
"implemenents" and "memeber".

Every other builder call that fails leaves its builder exactly as it
was. `ExecutableBuilder.addParameter` does not. It
introduces the (uniquified) name into the scope before the parameter
constructor rejects a void type. The model follows the code here
(`ExecutableBuilders.AddParameterOf`, `ExecutableBuilders.RejectedParameterTakesName`).

## Model

| member | source | states |
|---|---|---|
| Types.ExactlyOneKind | codemodel/src/main/java/com/github/sviperll/codemodel/Type.java:160-188 | Every `is...` test is "kind equals X", so exactly one kind test holds for any type: the one for its own kind |
| Types.PlacementRules | codemodel/src/main/java/com/github/sviperll/codemodel/Type.java:190-204 | `canBeMethodResult` iff declarable variable type or void. Void, wildcard and intersection are never declarable. Void, primitive and intersection are never type arguments. Bounds are exactly intersection, object and variable types |
| Types.ExecutableNeverPlaced | codemodel/src/main/java/com/github/sviperll/codemodel/Type.java:190-204 | The executable kind satisfies none of the four placement predicates |
| Types.GetObjectDetails | codemodel/src/main/java/com/github/sviperll/codemodel/Type.java:206-208 | Succeeds exactly on object types, returning details that wrap back to the same type. Otherwise fails with "Object type expected" |
| Types.GetWildcardDetails | codemodel/src/main/java/com/github/sviperll/codemodel/Type.java:210-212 | Succeeds exactly on wildcards (bound kind and bound give back the type). Otherwise fails with "Wildcard type expected" |
| Types.GetPrimitiveDetails | codemodel/src/main/java/com/github/sviperll/codemodel/Type.java:214-216 | Succeeds exactly on primitives. Otherwise fails with "Primitive type expected" |
| Types.GetArrayDetails | codemodel/src/main/java/com/github/sviperll/codemodel/Type.java:218-220 | Succeeds exactly on arrays, returning the component type. Otherwise fails with "Array type expected" |
| Types.GetVariableDetails | codemodel/src/main/java/com/github/sviperll/codemodel/Type.java:222-224 | Succeeds exactly on type variables, returning the name. Otherwise fails with "Type variable expected" |
| Types.GetIntersectionDetails | codemodel/src/main/java/com/github/sviperll/codemodel/Type.java:226-228 | Succeeds exactly on intersections, returning the bounds. Otherwise fails with "Intersection type expected" |
| Types.GetExecutableDetails | codemodel/src/main/java/com/github/sviperll/codemodel/Type.java:230-232 | Succeeds exactly on executable types. Otherwise fails with "Executable type expected" |
| Types.ContainsWildcardsStub | codemodel/src/main/java/com/github/sviperll/codemodel/Type.java:234-236 | `containsWildcards` of this snapshot fails on every type with "Not supported yet" |
| Types.Substitute | codemodel/src/main/java/com/github/sviperll/codemodel/Type.java:141-158 | Substitution is total. Every kind but a variable keeps its kind. Void and primitive types come back unchanged under any environment |
| Types.SubstituteObject | codemodel/src/main/java/com/github/sviperll/codemodel/Type.java:148-149 | Substituting inside an object type keeps its definition, its number of type arguments and whether it captures an enclosing type |
| Types.SubstituteVariable | codemodel/src/main/java/com/github/sviperll/codemodel/Type.java:142-147 | A variable becomes the environment's binding for its name if there is one, and stays itself otherwise |
| Types.SubstituteClosed | codemodel/src/main/java/com/github/sviperll/codemodel/Type.java:141-158 | A type with no reachable variable bound by the environment is unchanged by substitution (proved by mutual induction with `SubstituteObjectClosed`) |
| Types.SubstituteEmpty | codemodel/src/main/java/com/github/sviperll/codemodel/Type.java:141-158 | The empty environment changes no type |
| Types.ToListOfIntersectedTypes | codemodel/src/main/java/com/github/sviperll/codemodel/Type.java:238-247 | A non-intersection gives the singleton list of itself. An intersection gives one object-kind element per intersected type, in order |
| Types.IntersectedTypesRoundTrip | codemodel/src/main/java/com/github/sviperll/codemodel/Type.java:238-247 | Re-intersecting the listed object types of an intersection gives back the intersection |
| Environments.Bind | codemodel/src/main/java/com/github/sviperll/codemodel/GenericTypeDetails.java:73-79 | The keys are the base's plus the first min(params, args) parameter names. Base bindings not overridden survive. With distinct names, parameter i maps to argument i. Surplus on either side is ignored |
| Environments.BindLoop | codemodel/src/main/java/com/github/sviperll/codemodel/GenericTypeDetails.java:72-80 | The two-cursor loop computes exactly the pairwise binding `Bind` (loop invariant over the remaining suffixes) |
| Environments.EnclosingEnvironment | codemodel/src/main/java/com/github/sviperll/codemodel/GenericTypeDetails.java:66-71 | With no captured enclosing type the base environment is empty |
| Environments.ObjectEnvironment | codemodel/src/main/java/com/github/sviperll/codemodel/GenericTypeDetails.java:65-81 | An object type's environment is its enclosing type's environment overlaid with its own pairwise bindings: own names shadow enclosing ones, and the rest survive |
| Environments.ExecutableEnvironment | codemodel/src/main/java/com/github/sviperll/codemodel/GenericTypeDetails.java:65-81 | The same facts for an executable type, with the method-level type parameters as the overlay |
| Environments.RawTopLevelEnvironmentEmpty | codemodel/src/main/java/com/github/sviperll/codemodel/GenericTypeDetails.java:66-80 | A raw type with no captured enclosing type has the empty environment |
| Environments.RawEnvironmentIsBase | codemodel/src/main/java/com/github/sviperll/codemodel/GenericTypeDetails.java:73-80 | A raw application adds nothing to its enclosing type's environment |
| Environments.CaptureChaining | codemodel/src/main/java/com/github/sviperll/codemodel/GenericTypeDetails.java:70-78 | An outer variable that the inner definition does not rebind substitutes to what the enclosing instance binds it to |
| Fields.Declaration | codemodel/src/main/java/com/github/sviperll/codemodel/FieldBuilder.java:74-99 | The declaration view reports the builder's name, type, residence (static flag and declaring definition), initialized flag and final flag |
| Fields.NewField | codemodel/src/main/java/com/github/sviperll/codemodel/FieldBuilder.java:47-53 | Fails exactly on a void type, with "void is not allowed here". Otherwise the field starts neither final nor initialized, with the given name and type |
| Fields.SetFinal | codemodel/src/main/java/com/github/sviperll/codemodel/FieldBuilder.java:63-65 | Sets finality and changes nothing else |
| Fields.Initialize | codemodel/src/main/java/com/github/sviperll/codemodel/FieldBuilder.java:67-72 | The first call records the initializer. A later call fails with "Field already initialized" and keeps the first one |
| Fields.FieldHistory | codemodel/src/main/java/com/github/sviperll/codemodel/FieldBuilder.java:41-72 | Over any sequence of calls: name, type and residence never change. `isFinal` is the last `setFinal` value (false if none). The field is initialized iff some `initialize` happened, and then holds the FIRST initializer |
| Arena.ViewIsFinal | codemodel/src/main/java/com/github/sviperll/codemodel/InterfaceBuilder.java:80-83 | An interface builder's definition is never final. Other builders report the stored flag |
| Arena.ViewExtendsClass | codemodel/src/main/java/com/github/sviperll/codemodel/ObjectDefinitionBuilder.java:236-239 | The top object type when no superclass is set (always, for an interface builder). Otherwise the stored type |
| Arena.ViewConstructors | codemodel/src/main/java/com/github/sviperll/codemodel/InterfaceBuilder.java:95-98 | Always empty for an interface builder. Otherwise the added constructors in order |
| Arena.ViewIsAnonymous | codemodel/src/main/java/com/github/sviperll/codemodel/ClassBuilder.java:134-137 | Class and interface builders are never anonymous |
| ObjectBuilders.NewObjectDefinition | codemodel/src/main/java/com/github/sviperll/codemodel/ObjectDefinitionBuilder.java:67-76 | Fails, allocating nothing, exactly when an interface, enum or annotation is nested non-statically. Otherwise it allocates one blank definition with that kind, name and residence |
| ObjectBuilders.NewClassBuilder | codemodel/src/main/java/com/github/sviperll/codemodel/ClassBuilder.java:52-55 | Allocates one blank CLASS definition and nothing else |
| ObjectBuilders.NewInterfaceBuilder | codemodel/src/main/java/com/github/sviperll/codemodel/InterfaceBuilder.java:51-54 | As written: allocates a blank interface-builder definition whose kind is CLASS |
| ObjectBuilders.NewInterfaceBuilderCorrected | codemodel/src/main/java/com/github/sviperll/codemodel/InterfaceBuilder.java:51-54 | Corrected: the same definition with kind INTERFACE |
| ObjectBuilders.SetDefinitionFinal | codemodel/src/main/java/com/github/sviperll/codemodel/ClassBuilder.java:57-59 | Only the stored final flag changes. The view then reports it (never, for an interface builder) |
| ObjectBuilders.ExtendsClassUnder | codemodel/src/main/java/com/github/sviperll/codemodel/ObjectDefinitionBuilder.java:96-106 | Checks run in order: already extended, not a class, the finality check, wildcards. The first failing check decides the message and nothing changes. Otherwise the superclass is set and nothing else changes |
| ObjectBuilders.ExtendsClass | codemodel/src/main/java/com/github/sviperll/codemodel/ClassBuilder.java:61-71 | As written, success implies the superclass is FINAL. A non-final class is rejected with "Trying to extend final class" |
| ObjectBuilders.ExtendsClassCorrected | codemodel/src/main/java/com/github/sviperll/codemodel/ClassBuilder.java:66-67 | With the intended check, success implies the superclass is NOT final, with all four conditions as an iff |
| ObjectBuilders.ExtendingTopTypeRejected | codemodel/src/main/java/com/github/sviperll/codemodel/ObjectDefinitionBuilder.java:101-102 | In a fresh session a new class cannot extend the non-final top type as written, but can with the correction |
| ObjectBuilders.ExtendsClassOnce | codemodel/src/main/java/com/github/sviperll/codemodel/ClassBuilder.java:62-70 | After one successful `extendsClass`, the view reports that type. Every later call fails with "Already extended" and changes nothing |
| ObjectBuilders.ImplementsInterface | codemodel/src/main/java/com/github/sviperll/codemodel/ObjectDefinitionBuilder.java:108-114 | Rejects non-interfaces, then wildcard types, changing nothing. Otherwise appends the type to the end of the interface list, duplicates allowed |
| ObjectBuilders.InterfacesInInsertionOrder | codemodel/src/main/java/com/github/sviperll/codemodel/ClassBuilder.java:73-79 | Implementing a sequence of acceptable interfaces appends exactly that sequence to `implementsInterfaces()` |
| ObjectBuilders.InterfaceBuilderNotImplementable | codemodel/src/main/java/com/github/sviperll/codemodel/InterfaceBuilder.java:52 | As written, a definition made by `InterfaceBuilder` can never be implemented: it fails with "Only interfaces can be implemented" |
| ObjectBuilders.InterfaceBuilderCorrectedImplementable | codemodel/src/main/java/com/github/sviperll/codemodel/InterfaceBuilder.java:52 | With the kind corrected, any wildcard-free type of the new interface can be implemented |
| ObjectBuilders.InterfaceBuilderView | codemodel/src/main/java/com/github/sviperll/codemodel/InterfaceBuilder.java:80-98 | An interface builder's view is never final, always extends the top type, and has no constructors |
| ObjectBuilders.AddField | codemodel/src/main/java/com/github/sviperll/codemodel/ObjectDefinitionBuilder.java:116-136 | A duplicate name fails with "<qualified name>.<name> already defined". A void type then fails in the field builder, and either failure changes nothing. Success allocates the field, maps the name to it and appends it to the init ordering of its residence only |
| ObjectBuilders.Field | codemodel/src/main/java/com/github/sviperll/codemodel/ObjectDefinitionBuilder.java:127-136 | An instance field grows the instance init ordering by one and leaves the static one unchanged |
| ObjectBuilders.StaticField | codemodel/src/main/java/com/github/sviperll/codemodel/ObjectDefinitionBuilder.java:116-125 | A static field grows the static init ordering by one and leaves the instance one unchanged |
| ObjectBuilders.FieldNamesUnique | codemodel/src/main/java/com/github/sviperll/codemodel/ObjectDefinitionBuilder.java:117-119 | A second field of the same name, static or not, fails and the first field stays in place |
| ObjectBuilders.UpdateField | codemodel/src/main/java/com/github/sviperll/codemodel/FieldBuilder.java:63-72 | A field-builder call changes only that field. It fails exactly when initializing an initialized field |
| ObjectBuilders.NestedClass | codemodel/src/main/java/com/github/sviperll/codemodel/ObjectDefinitionBuilder.java:138-154 | A duplicate nested name fails first, then the nesting rule, and either failure changes nothing. Success allocates a blank definition and maps the name to it |
| ObjectBuilders.StaticNestedClass | codemodel/src/main/java/com/github/sviperll/codemodel/ObjectDefinitionBuilder.java:138-145 | Succeeds exactly when the nested name is new, for any kind |
| ObjectBuilders.InnerClass | codemodel/src/main/java/com/github/sviperll/codemodel/ObjectDefinitionBuilder.java:147-154 | For an interface, enum or annotation it always fails and the nested map is unchanged. For a class it succeeds iff the name is new |
| ObjectBuilders.SeparateNamespaces | codemodel/src/main/java/com/github/sviperll/codemodel/ObjectDefinitionBuilder.java:59-62 | A field and a nested definition may share a name, added in either order |
| ObjectBuilders.AddExecutable | codemodel/src/main/java/com/github/sviperll/codemodel/ObjectDefinitionBuilder.java:156-175 | Assumed never to fail (see Left out), and does no name check. Allocates one executable in the given residence and grows the method (or constructor) list by exactly it |
| ObjectBuilders.Method | codemodel/src/main/java/com/github/sviperll/codemodel/ObjectDefinitionBuilder.java:156-161 | `methods()` grows by the new instance method |
| ObjectBuilders.StaticMethod | codemodel/src/main/java/com/github/sviperll/codemodel/ObjectDefinitionBuilder.java:163-168 | `methods()` grows by the new static method |
| ObjectBuilders.AddConstructor | codemodel/src/main/java/com/github/sviperll/codemodel/ClassBuilder.java:81-86 | The constructor list grows by exactly one, visible through `constructors()` of a class builder. `methods()` is unchanged |
| ObjectBuilders.ClassBuilderView | codemodel/src/main/java/com/github/sviperll/codemodel/ClassBuilder.java:109-137 | A new class is not final, extends the top type and is not anonymous. After any sequence of `setFinal` calls, `isFinal()` is the last value |
| ExecutableBuilders.MakeIntroducable | codemodel/src/main/java/com/github/sviperll/codemodel/ExecutableBuilder.java:70-71 | The chosen name is not in the scope, and it is the requested name whenever that one is free |
| ExecutableBuilders.AddParameterOf | codemodel/src/main/java/com/github/sviperll/codemodel/ExecutableBuilder.java:69-81 | The fresh name always enters the scope. A void type fails with "void is not allowed here" and leaves the parameters unchanged. Otherwise the parameter is appended with the fresh name and the given finality |
| ExecutableBuilders.AddParameter | codemodel/src/main/java/com/github/sviperll/codemodel/ExecutableBuilder.java:69-74 | On success one non-final parameter is appended |
| ExecutableBuilders.AddFinalParameter | codemodel/src/main/java/com/github/sviperll/codemodel/ExecutableBuilder.java:76-81 | On success one final parameter is appended |
| ExecutableBuilders.RejectedParameterTakesName | codemodel/src/main/java/com/github/sviperll/codemodel/ExecutableBuilder.java:70-73 | A rejected void parameter still takes its name: the next parameter requested under that name is stored under another one |
| ExecutableBuilders.ParameterNamesStayDistinct | codemodel/src/main/java/com/github/sviperll/codemodel/ExecutableBuilder.java:70-80 | Adding a parameter keeps parameter names pairwise distinct and in scope |
| ExecutableBuilders.ThrowsException | codemodel/src/main/java/com/github/sviperll/codemodel/ExecutableBuilder.java:83-89 | A non-object type fails first, then a generic definition, and either failure changes nothing. Otherwise the type is appended to the throws list |
| ExecutableBuilders.ThrowsInCallOrder | codemodel/src/main/java/com/github/sviperll/codemodel/ExecutableBuilder.java:83-89 | Accepted thrown types are recorded in call order |
| ExecutableBuilders.TypeContainer | codemodel/src/main/java/com/github/sviperll/codemodel/ExecutableBuilder.java:54-60 | A type container exists iff the executable is static. It holds a raw, uncaptured type of the executable |
| ExecutableBuilders.RawType | codemodel/src/main/java/com/github/sviperll/codemodel/ExecutableBuilder.java:116-123 | Succeeds iff static, with the container's type. Otherwise fails with "Parent instance type is required" |
| ExecutableBuilders.RawTypeIn | codemodel/src/main/java/com/github/sviperll/codemodel/ExecutableBuilder.java:125-133 | A static executable fails with "Type is static memeber, no parent is expected.", and a non-object parent with "Object type expected". Otherwise the raw type is captured by the parent |
| ExecutableBuilders.RawTypeAccessorsExclusive | codemodel/src/main/java/com/github/sviperll/codemodel/ExecutableBuilder.java:116-133 | For an object-type parent exactly one raw-type accessor succeeds, and which one is decided by residence |
| ExecutableBuilders.IsMethod | codemodel/src/main/java/com/github/sviperll/codemodel/ExecutableBuilder.java:135-143 | `isMethod()` is the negation of `isConstructor()` |
| ExecutableBuilders.ObjectInternalType | codemodel/src/main/java/com/github/sviperll/codemodel/ExecutableBuilder.java:166 | The parent's internal type applies the definition to its own type parameters. It is captured exactly for instance-nested definitions |
| ExecutableBuilders.NarrowExecutable | codemodel/src/main/java/com/github/sviperll/codemodel/GenericTypeDetails.java:51 | Narrowing succeeds iff there is one argument per type parameter, and then installs the arguments |
| ExecutableBuilders.InternalType | codemodel/src/main/java/com/github/sviperll/codemodel/ExecutableBuilder.java:160-174 | Never fails: the narrowing to the executable's own type variables always has matching arity. The result is captured iff the executable is an instance member, by the parent's internal type |
| ExecutableBuilders.ReturnType | codemodel/src/main/java/com/github/sviperll/codemodel/ExecutableBuilder.java:212-225 | On a raw executable type, a constructor returns the parent instance type. A method returns its result type unchanged without a parent; with a parent it returns the result type substituted by the parent's definition environment, so a closed result type is unchanged and a bound variable becomes its binding |
| ExecutableBuilders.CapturedEnclosingIffInstance | codemodel/src/main/java/com/github/sviperll/codemodel/ExecutableBuilder.java:227-230 | The captured enclosing type is absent iff there is no parent instance, that is iff the executable is static |
| ExecutableBuilders.MethodReturnsResultInParent | codemodel/src/main/java/com/github/sviperll/codemodel/ExecutableBuilder.java:216-224 | Through the raw types handed out, a static method returns its declared result type, and an instance method returns it substituted by the parent's environment, which leaves it unchanged for a raw top-level parent |
| ExecutableBuilders.ConstructorReturnsParent | codemodel/src/main/java/com/github/sviperll/codemodel/ExecutableBuilder.java:213-215 | A constructor's type relative to a parent returns that parent |
| TypeViews.SubstituteParameter | codemold/src/main/java/com/github/sviperll/codemold/ExecutableType.java:61 | A parameter keeps its name and finality. A parameter whose type has no bound variable is unchanged |
| TypeViews.SubstitutedParameters | codemold/src/main/java/com/github/sviperll/codemold/ExecutableType.java:57-62 | Same length as the definition's parameters. Element i is parameter i with its type moved into the definition environment |
| TypeViews.SubstitutedThrowsList | codemold/src/main/java/com/github/sviperll/codemold/ExecutableType.java:68-73 | Same length as the definition's throws list. Element i is type i moved into the definition environment |
| TypeViews.RawExecutableViewsAreDeclarations | codemold/src/main/java/com/github/sviperll/codemold/ExecutableType.java:57-76 | For a raw, uncaptured executable type both views equal the declarations |
| TypeViews.Parameters | codemold/src/main/java/com/github/sviperll/codemold/ExecutableType.java:57-66 | The first call computes and keeps the substituted list. Later calls answer the kept list and leave the view as it is |
| TypeViews.ThrowsList | codemold/src/main/java/com/github/sviperll/codemold/ExecutableType.java:68-77 | The same for the thrown types |
| TypeViews.ExecutableViewsMemoised | codemold/src/main/java/com/github/sviperll/codemold/ExecutableType.java:58-76 | A second call, against any arena, answers what the first call answered |
| TypeViews.ParametersStaleAfterFirstCall | codemold/src/main/java/com/github/sviperll/codemold/ExecutableType.java:58-65 | A parameter added after the first call is missing from every later answer |
| TypeViews.FillMethods | codemodel/src/main/java/com/github/sviperll/codemodel/ObjectTypeDetails.java:62-64 | The loop appends each method's `rawType(parent)` in order. It stops at the first static method with its error, keeping what it filled |
| TypeViews.MethodsAsWritten | codemodel/src/main/java/com/github/sviperll/codemodel/ObjectTypeDetails.java:59-67 | As written: the cache holds the member types up to the first static method. The call succeeds iff there is no static method. A cached list is answered as is |
| TypeViews.MethodsAsWrittenCachesPartialList | codemodel/src/main/java/com/github/sviperll/codemodel/ObjectTypeDetails.java:60-66 | With a static method, the first call fails and the second succeeds with a list shorter than `methods()` |
| TypeViews.MemberType | codemodel/src/main/java/com/github/sviperll/codemodel/ObjectTypeDetails.java:63 | A static method's member type is uncaptured. An instance method's is its raw type captured by the object type |
| TypeViews.MethodsCorrected | codemodel/src/main/java/com/github/sviperll/codemodel/ObjectTypeDetails.java:59-67 | Corrected: one member type per method of the definition, in order, cached once complete |
| TypeViews.MethodsCorrectedStable | codemodel/src/main/java/com/github/sviperll/codemodel/ObjectTypeDetails.java:59-67 | The first call reflects the methods as of that call. A method added afterwards is not reflected and later calls answer the same list, assuming callers never change the shared list (see Left out) |
| TypeViews.MethodsAgreeWithoutStatics | codemodel/src/main/java/com/github/sviperll/codemodel/ObjectTypeDetails.java:59-67 | Without static methods the as-written and corrected `methods()` agree |
| TypeViews.ObjectContainsWildcardsStub | codemodel/src/main/java/com/github/sviperll/codemodel/ObjectTypeDetails.java:55-57 | Always fails with "Not supported yet." |
| TypeViews.ObjectInEnvironmentStub | codemodel/src/main/java/com/github/sviperll/codemodel/ObjectTypeDetails.java:69-71 | Always fails with "Not supported yet." |

## Left out

- Rendering: `Type.createRenderer`, the renderer context, and everything of the annotation processor and the value-class generator. They are text output and calls into an external code-generation library.
- Method bodies, `BlockBuilder` and `Expression`: an initializer is an opaque value.
- `VariableScope`: its renaming scheme is not part of this model. `MakeIntroducable` appends underscores. Both of its ensures are assumptions about `VariableScope.makeIntroducable`: the chosen name is not yet in the scope, and a name not yet in the scope is taken as it is. `ExecutableBuilders.RejectedParameterTakesName` relies on the second.
- Type parameters are declared through a generics builder that is not part of this model. Definitions carry their type-parameter names as data, and the contracts hold for any names.
- ObjectBuilders.AddField: the package prefix of a top-level definition's qualified name is not modelled, so the "already defined" message starts at the outermost definition's simple name.
- `ClassBuilder.field` and `innerClass` delegate to a base class that is not part of this model. They are modelled with the rules of `ObjectDefinitionBuilder`.
- `ObjectTypeDetails.substitute`, `Type.inEnvironment` and the `substitute` methods of `ArrayType`, `IntersectionType` and `WildcardType` are defined outside the modelled files. All are assumed to rebuild their type structurally, keeping its kind and substituting the types inside it, and are modelled as `Substitute`.
- `TypeEnvironment` is defined outside the modelled files. `createBuilder(base)`, `put` and `build` are assumed to have overlay semantics: every binding of the base survives unless a `put` replaces it, and a later `put` of a name replaces an earlier one. `Environments.Bind` rests on this.
- `ObjectDefinition.internalType` is defined outside the modelled files. `ObjectInternalType` gives it the shape the executable builder relies on.
- ExecutableBuilders.NarrowExecutable: `narrow` is abstract in the source. The model checks arity only, with its own message for a mismatch, and no bounds.
- A method's declared result type is set by the method builder, which is not part of this model. A new executable starts with `void`.
- ExecutableBuilders.ReturnType: a constructor type with no parent instance would dereference null in the source. The model requires a parent for constructor types, which every constructor type handed out by `RawTypeIn` has. It also requires a raw type (no type arguments): `returnType()` is defined only on the raw executable type the builder builds, and the return type of a narrowed executable type is not modelled.
- `containsWildcards` is a throwing stub in both `Type` and `ObjectTypeDetails`. The builders' wildcard checks use the structural predicate `ObjectContainsWildcards` instead, since with the stub no `extendsClass` or `implementsInterface` call could ever succeed. The stubs are modelled separately.
- ObjectBuilders.AddExecutable: `method`, `staticMethod` and `addConstructor` declare `CodeModelException`, which only the `MethodBuilder` and `ConstructorBuilder` constructors could raise. Those constructors are not part of this model and are assumed not to throw, so `AddExecutable`, `Method`, `StaticMethod` and `AddConstructor` always succeed.
- TypeViews.MethodsCorrectedStable: `methods()` hands out its cached `ArrayList` itself, not a copy. "Later calls answer the same list" holds in the source only while callers do not change that list, and the model assumes they never do. The same holds for `MethodsAsWritten`.
- Executable type views: the executable type built by `ExecutableBuilder` stubs both `parameters()` and `throwsList()` with `UnsupportedOperationException("Not supported yet.")`. The model gives these types the memoised, substituted views of `codemold/src/main/java/com/github/sviperll/codemold/ExecutableType.java:57-76` in their place, so `ParametersStaleAfterFirstCall` combines this builder's `addParameter` with that class's `parameters()`.
- TypeViews.SubstituteParameter: `VariableDeclaration.substitute` is defined outside the modelled files. Keeping the name and finality and substituting only the type is assumed.
- Arena.ViewConstructors: `ClassBuilder`'s `constructors()` hands out its mutable list itself, not a copy. "The added constructors in order" holds only while callers leave that list alone, and the model assumes they do.
- `fields()` and `innerClasses()` hand out live views of name-keyed sorted maps. These iterate in name order, and a caller can remove entries through them. The model reports them as the `map` values `ViewFields` and `ViewInnerClasses`, which have no order, and assumes no caller removes anything.
- Object identity: each `rawType(parent)` call builds a new container object. In the model, types are values compared structurally, and copies handed to callers cannot alias a cache.
- Concurrency is absent in the source too: the builders are single-threaded.

## Findings

| source | as written | input that shows it | evidently intended | confidence | as-written member | corrected member |
|---|---|---|---|---|---|---|
| codemodel/src/main/java/com/github/sviperll/codemodel/ClassBuilder.java:66-67 | `extendsClass` rejects a superclass that is NOT final, with the message "Trying to extend final class" (same in `ObjectDefinitionBuilder.java:101-102`) | a new class extending the non-final top object type in a fresh session | reject a superclass that IS final | not executed; high (the message names the opposite condition) | ObjectBuilders.ExtendsClass | ObjectBuilders.ExtendsClassCorrected |
| codemodel/src/main/java/com/github/sviperll/codemodel/InterfaceBuilder.java:52 | `InterfaceBuilder` passes kind CLASS to its base class | any `implementsInterface` / `extendsInterface` of a type of a new `InterfaceBuilder` definition fails with "Only interfaces can be implemented" | pass kind INTERFACE | not executed; high | ObjectBuilders.NewInterfaceBuilder | ObjectBuilders.NewInterfaceBuilderCorrected |
| codemodel/src/main/java/com/github/sviperll/codemodel/ObjectTypeDetails.java:60-66 | `methods()` installs the cache before filling it, and `rawType(parent)` throws on a static method | a definition whose methods are an instance method followed by a static one: the first call throws, the second answers a one-element list | fill the list completely (static methods through `rawType()`), then cache it | not executed; medium (the static-method case may simply never have been exercised) | TypeViews.MethodsAsWritten | TypeViews.MethodsCorrected |
