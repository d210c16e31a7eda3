/** The object-definition builders: `ObjectDefinitionBuilder` and the
    `ClassBuilder` / `InterfaceBuilder` pair of the same code base. Each
    mutator either rejects the call with a structural error, leaving the
    arena exactly as it was, or appends to an ordered list or a name-keyed
    map of the definition it is called on.
 */
module ObjectBuilders {
  import opened Wrappers
  import opened Types
  import opened Fields
  import opened Arena

  const NestingMessage := "Interface, enum or annotation should always be static when nested in other class"

  /** `nested` is the arena after appending one object definition to `m`:
      the new handle is `id` and nothing allocated before changes. */
  predicate AppendedObject(m: CodeModel, m': CodeModel, id: ObjId) {
    && id == |m.objects| && |m'.objects| == |m.objects| + 1
    && m'.objects[..|m.objects|] == m.objects
    && m'.executables == m.executables && m'.fields == m.fields
  }

  /** The nesting rule checked by the `ObjectDefinitionBuilder`
      constructor: an interface, enum or annotation may not be an instance
      member of another definition. */
  predicate NestingRuleViolated(kind: DefinitionKind, residence: Residence) {
    (kind.Interface? || kind.Enum? || kind.Annotation?) && residence.Nested? && !residence.isStatic
  }

  /** The `ObjectDefinitionBuilder` constructor: allocates a blank definition
      of the given kind, name and residence, or rejects a non-class kind
      nested as an instance member, allocating nothing. */
  function NewObjectDefinition(m: CodeModel, kind: DefinitionKind, residence: Residence, name: Name): (s: Step<ObjId>)
    requires residence.Nested? ==> residence.parent < |m.objects|
    ensures s.outcome.Failure? <==> NestingRuleViolated(kind, residence)
    ensures s.outcome.Failure? ==> s.model == m && s.outcome.error == ModelError(NestingMessage)
    ensures s.outcome.Success? ==>
              && AppendedObject(m, s.model, s.outcome.value)
              && var o := s.model.objects[s.outcome.value];
                 IsBlank(o) && o.flavour == DefinitionBuilder
                 && o.kind == kind && o.residence == residence && o.name == name
    ensures Valid(m) ==> Valid(s.model)
  {
    if NestingRuleViolated(kind, residence) then Step(m, Failure(ModelError(NestingMessage)))
    else
      var o := Blank(DefinitionBuilder, kind, residence, name);
      AppendObjectValidIf(m, o);
      Step(m.(objects := m.objects + [o]), Success(|m.objects|))
  }

  /** The `ClassBuilder` constructor: a blank class definition. */
  function NewClassBuilder(m: CodeModel, residence: Residence, name: Name): (s: Step<ObjId>)
    requires residence.Nested? ==> residence.parent < |m.objects|
    ensures s.outcome.Success? && AppendedObject(m, s.model, s.outcome.value)
    ensures var o := s.model.objects[s.outcome.value];
            IsBlank(o) && o.flavour == ClassBuilder && o.kind == Class
            && o.residence == residence && o.name == name
    ensures Valid(m) ==> Valid(s.model)
  {
    var o := Blank(ClassBuilder, Class, residence, name);
    AppendObjectValidIf(m, o);
    Step(m.(objects := m.objects + [o]), Success(|m.objects|))
  }

  /** The `InterfaceBuilder` constructor as written: it hands the kind CLASS,
      not INTERFACE, to its superclass, so the definition reports itself as
      a class. */
  function NewInterfaceBuilder(m: CodeModel, residence: Residence, name: Name): (s: Step<ObjId>)
    requires residence.Nested? ==> residence.parent < |m.objects|
    ensures s.outcome.Success? && AppendedObject(m, s.model, s.outcome.value)
    ensures var o := s.model.objects[s.outcome.value];
            IsBlank(o) && o.flavour == InterfaceBuilder && o.kind == Class
            && o.residence == residence && o.name == name
    ensures Valid(m) ==> Valid(s.model)
  {
    var o := Blank(InterfaceBuilder, Class, residence, name);
    AppendObjectValidIf(m, o);
    Step(m.(objects := m.objects + [o]), Success(|m.objects|))
  }

  /** The `InterfaceBuilder` constructor with the kind it evidently means:
      INTERFACE. */
  function NewInterfaceBuilderCorrected(m: CodeModel, residence: Residence, name: Name): (s: Step<ObjId>)
    requires residence.Nested? ==> residence.parent < |m.objects|
    ensures s.outcome.Success? && AppendedObject(m, s.model, s.outcome.value)
    ensures var o := s.model.objects[s.outcome.value];
            IsBlank(o) && o.flavour == InterfaceBuilder && o.kind == Interface
            && o.residence == residence && o.name == name
    ensures Valid(m) ==> Valid(s.model)
  {
    var o := Blank(InterfaceBuilder, Interface, residence, name);
    AppendObjectValidIf(m, o);
    Step(m.(objects := m.objects + [o]), Success(|m.objects|))
  }

  lemma AppendObjectValidIf(m: CodeModel, o: ObjectDef)
    requires o.residence.Nested? ==> o.residence.parent < |m.objects|
    requires IsBlank(o)
    ensures Valid(m) ==> Valid(m.(objects := m.objects + [o]))
  {
    if Valid(m) {
      AppendObjectValid(m, o);
    }
  }

  // ---------------------------------------------------------------------
  // Finality and supertypes.
  // ---------------------------------------------------------------------

  /** `setFinal`: only the stored flag changes; the view reports it, except
      for an interface builder, whose view is never final. An interface
      builder offers no `setFinal`; the model accepts every flavour, an
      over-approximation. */
  function SetDefinitionFinal(m: CodeModel, id: ObjId, value: bool): (m': CodeModel)
    requires id < |m.objects|
    ensures m' == UpdateObject(m, id, m.objects[id].(isFinal := value))
    ensures ViewIsFinal(m', id) == (value && !m.objects[id].flavour.InterfaceBuilder?)
    ensures Valid(m) ==> Valid(m')
  {
    m.(objects := m.objects[id := m.objects[id].(isFinal := value)])
  }

  /** Which reading of the superclass finality check is applied. */
  datatype FinalityRule =
    | AsWritten  // the source: reject a superclass that is NOT final
    | Intended   // the evident intent: reject a superclass that IS final

  /** The finality check of `extendsClass`, which fails with "Trying to
      extend final class". As written it fails when the candidate superclass
      is not final. */
  predicate FinalCheckRejects(rule: FinalityRule, superIsFinal: bool) {
    match rule
    case AsWritten => !superIsFinal
    case Intended => superIsFinal
  }

  /** `extendsClass` of `ObjectDefinitionBuilder` and `ClassBuilder`, under a
      finality rule. The checks run in this order: already extended; the
      type's definition is not a class; the finality check; the type
      contains wildcards. The first that fails decides the error and leaves
      the arena unchanged; if none fails, the superclass is set and nothing
      else changes. An interface builder offers no `extendsClass`; the model
      accepts every flavour as the target, an over-approximation. */
  function ExtendsClassUnder(rule: FinalityRule, m: CodeModel, id: ObjId, t: ObjectType): (s: Step<()>)
    requires id < |m.objects| && t.definition < |m.objects|
    ensures s.outcome.Failure? ==> s.model == m
    ensures m.objects[id].superclass.Some? ==> s.outcome == Failure(ModelError("Already extended"))
    ensures m.objects[id].superclass.None? && !ViewKind(m, t.definition).IsClass() ==>
              s.outcome == Failure(ModelError("Only classes can be extended"))
    ensures m.objects[id].superclass.None? && ViewKind(m, t.definition).IsClass()
            && FinalCheckRejects(rule, ViewIsFinal(m, t.definition)) ==>
              s.outcome == Failure(ModelError("Trying to extend final class"))
    ensures m.objects[id].superclass.None? && ViewKind(m, t.definition).IsClass()
            && !FinalCheckRejects(rule, ViewIsFinal(m, t.definition)) && ObjectContainsWildcards(t) ==>
              s.outcome == Failure(ModelError("Wildcards are not allowed in extends clause"))
    ensures s.outcome.Success? <==>
              && m.objects[id].superclass.None?
              && ViewKind(m, t.definition).IsClass()
              && !FinalCheckRejects(rule, ViewIsFinal(m, t.definition))
              && !ObjectContainsWildcards(t)
    ensures s.outcome.Success? ==> s.model == UpdateObject(m, id, m.objects[id].(superclass := Some(t)))
    ensures Valid(m) ==> Valid(s.model)
  {
    var o := m.objects[id];
    if o.superclass.Some? then Step(m, Failure(ModelError("Already extended")))
    else if !ViewKind(m, t.definition).IsClass() then Step(m, Failure(ModelError("Only classes can be extended")))
    else if FinalCheckRejects(rule, ViewIsFinal(m, t.definition)) then Step(m, Failure(ModelError("Trying to extend final class")))
    else if ObjectContainsWildcards(t) then Step(m, Failure(ModelError("Wildcards are not allowed in extends clause")))
    else Step(UpdateObject(m, id, o.(superclass := Some(t))), Success(()))
  }

  /** `extendsClass` exactly as the source has it. A class can only ever
      extend a definition that is final at the time of the call. */
  function ExtendsClass(m: CodeModel, id: ObjId, t: ObjectType): (s: Step<()>)
    requires id < |m.objects| && t.definition < |m.objects|
    ensures s.outcome.Success? ==> ViewIsFinal(m, t.definition)
    ensures !ViewIsFinal(m, t.definition) && m.objects[id].superclass.None? && ViewKind(m, t.definition).IsClass() ==>
              s == Step(m, Failure(ModelError("Trying to extend final class")))
  {
    ExtendsClassUnder(AsWritten, m, id, t)
  }

  /** `extendsClass` with the evidently intended finality check: a final
      class can never become a superclass. */
  function ExtendsClassCorrected(m: CodeModel, id: ObjId, t: ObjectType): (s: Step<()>)
    requires id < |m.objects| && t.definition < |m.objects|
    ensures s.outcome.Success? ==> !ViewIsFinal(m, t.definition)
    ensures s.outcome.Success? <==>
              m.objects[id].superclass.None? && ViewKind(m, t.definition).IsClass()
              && !ViewIsFinal(m, t.definition) && !ObjectContainsWildcards(t)
  {
    ExtendsClassUnder(Intended, m, id, t)
  }

  /** A concrete instance of the inverted check: in a fresh session a new
      class cannot name the (non-final) top object type as its superclass,
      while the corrected check accepts it. */
  lemma ExtendingTopTypeRejected()
    ensures var s := NewClassBuilder(Empty(), TopLevel, "A");
            && ExtendsClass(s.model, s.outcome.value, TopType()).outcome == Failure(ModelError("Trying to extend final class"))
            && ExtendsClassCorrected(s.model, s.outcome.value, TopType()).outcome.Success?
  {
  }

  /** Once `extendsClass` has succeeded, every later call fails with
      "Already extended", leaves the arena unchanged, and the view keeps
      reporting the first superclass. */
  lemma ExtendsClassOnce(rule: FinalityRule, m: CodeModel, id: ObjId, t: ObjectType, t2: ObjectType)
    requires id < |m.objects| && t.definition < |m.objects| && t2.definition < |m.objects|
    requires !m.objects[id].flavour.InterfaceBuilder?
    requires ExtendsClassUnder(rule, m, id, t).outcome.Success?
    ensures var m1 := ExtendsClassUnder(rule, m, id, t).model;
            && ViewExtendsClass(m1, id) == t
            && ExtendsClassUnder(rule, m1, id, t2) == Step(m1, Failure(ModelError("Already extended")))
  {
  }

  /** `implementsInterface` (and `InterfaceBuilder.extendsInterface`, which
      has the same checks): the type's definition must be an interface, then
      the type must be free of wildcards; on success the type is appended to
      the interface list, duplicates included, and nothing else changes. */
  function ImplementsInterface(m: CodeModel, id: ObjId, t: ObjectType): (s: Step<()>)
    requires id < |m.objects| && t.definition < |m.objects|
    ensures |s.model.objects| == |m.objects|
    ensures s.outcome.Failure? ==> s.model == m
    ensures !ViewKind(m, t.definition).IsInterface() ==>
              s.outcome == Failure(ModelError("Only interfaces can be implemented"))
    ensures ViewKind(m, t.definition).IsInterface() && ObjectContainsWildcards(t) ==>
              s.outcome == Failure(ModelError("Wildcards are not allowed in implemenents clause"))
    ensures s.outcome.Success? <==> ViewKind(m, t.definition).IsInterface() && !ObjectContainsWildcards(t)
    ensures s.outcome.Success? ==>
              && ViewInterfaces(s.model, id) == ViewInterfaces(m, id) + [t]
              && s.model == UpdateObject(m, id, m.objects[id].(interfaces := ViewInterfaces(s.model, id)))
    ensures Valid(m) ==> Valid(s.model)
  {
    var o := m.objects[id];
    if !ViewKind(m, t.definition).IsInterface() then Step(m, Failure(ModelError("Only interfaces can be implemented")))
    else if ObjectContainsWildcards(t) then Step(m, Failure(ModelError("Wildcards are not allowed in implemenents clause")))
    else Step(UpdateObject(m, id, o.(interfaces := o.interfaces + [t])), Success(()))
  }

  /** Implement (or extend) `ts` one after another, stopping at the first
      rejection. */
  function ImplementsAll(m: CodeModel, id: ObjId, ts: seq<ObjectType>): Step<()>
    requires id < |m.objects|
    requires forall i :: 0 <= i < |ts| ==> ts[i].definition < |m.objects|
    decreases |ts|
  {
    if |ts| == 0 then Step(m, Success(()))
    else
      var s := ImplementsInterface(m, id, ts[0]);
      if s.outcome.Failure? then s else ImplementsAll(s.model, id, ts[1..])
  }

  /** `t` passes both checks of `implementsInterface` in `m`. */
  predicate Implementable(m: CodeModel, t: ObjectType) {
    t.definition < |m.objects| && ViewKind(m, t.definition).IsInterface() && !ObjectContainsWildcards(t)
  }

  /** An accepted `implementsInterface` appends its type and changes no
      definition's kind, so what was implementable stays implementable. */
  lemma ImplementStep(m: CodeModel, id: ObjId, t: ObjectType)
    requires id < |m.objects| && Implementable(m, t)
    ensures var s := ImplementsInterface(m, id, t);
            && s.outcome.Success? && |s.model.objects| == |m.objects|
            && ViewInterfaces(s.model, id) == ViewInterfaces(m, id) + [t]
            && forall u :: Implementable(m, u) ==> Implementable(s.model, u)
  {
    var s := ImplementsInterface(m, id, t);
    forall u | Implementable(m, u)
      ensures Implementable(s.model, u)
    {
      assert ViewKind(s.model, u.definition) == ViewKind(m, u.definition);
    }
  }

  /** One step of `ImplementsAll` after an accepted first type. */
  lemma ImplementsAllUnfold(m: CodeModel, id: ObjId, ts: seq<ObjectType>)
    requires id < |m.objects| && |ts| > 0
    requires forall i :: 0 <= i < |ts| ==> ts[i].definition < |m.objects|
    requires ImplementsInterface(m, id, ts[0]).outcome.Success?
    ensures var s := ImplementsInterface(m, id, ts[0]);
            ImplementsAll(m, id, ts) == ImplementsAll(s.model, id, ts[1..])
  {
  }

  lemma ConsRest<T>(prefix: seq<T>, ts: seq<T>)
    requires |ts| > 0
    ensures prefix + [ts[0]] + ts[1..] == prefix + ts
  {
    assert [ts[0]] + ts[1..] == ts;
  }

  /** Interfaces are reported in insertion order: implementing a sequence of
      acceptable interface types appends exactly that sequence to the view. */
  lemma {:induction false} InterfacesInInsertionOrder(m: CodeModel, id: ObjId, ts: seq<ObjectType>)
    requires id < |m.objects|
    requires forall i :: 0 <= i < |ts| ==> Implementable(m, ts[i])
    ensures forall i :: 0 <= i < |ts| ==> ts[i].definition < |m.objects|
    ensures var s := ImplementsAll(m, id, ts);
            s.outcome.Success? && |s.model.objects| == |m.objects|
            && ViewInterfaces(s.model, id) == ViewInterfaces(m, id) + ts
    decreases |ts|
  {
    if |ts| > 0 {
      var s := ImplementsInterface(m, id, ts[0]);
      var rest := ts[1..];
      ImplementStep(m, id, ts[0]);
      assert forall i :: 0 <= i < |rest| ==> rest[i] == ts[i + 1];
      InterfacesInInsertionOrder(s.model, id, rest);
      ImplementsAllUnfold(m, id, ts);
      ConsRest(ViewInterfaces(m, id), ts);
    }
  }

  /** As written, a definition made by `InterfaceBuilder` reports the kind
      CLASS, so no definition can ever implement it. */
  lemma InterfaceBuilderNotImplementable(m: CodeModel, residence: Residence, name: Name,
                                         user: ObjId, t: ObjectType)
    requires residence.Nested? ==> residence.parent < |m.objects|
    requires user <= |m.objects| && t.definition == |m.objects|
    ensures var s := NewInterfaceBuilder(m, residence, name);
            ImplementsInterface(s.model, user, t) == Step(s.model, Failure(ModelError("Only interfaces can be implemented")))
  {
  }

  /** With the kind corrected, a wildcard-free type of the new interface can
      be implemented by any definition. */
  lemma InterfaceBuilderCorrectedImplementable(m: CodeModel, residence: Residence, name: Name,
                                               user: ObjId, t: ObjectType)
    requires residence.Nested? ==> residence.parent < |m.objects|
    requires user <= |m.objects| && t.definition == |m.objects| && !ObjectContainsWildcards(t)
    ensures var s := NewInterfaceBuilderCorrected(m, residence, name);
            ImplementsInterface(s.model, user, t).outcome.Success?
  {
  }

  /** An interface builder's view: never final, always the top superclass,
      never any constructors, whatever was done to the builder. */
  lemma InterfaceBuilderView(m: CodeModel, id: ObjId)
    requires id < |m.objects| && m.objects[id].flavour.InterfaceBuilder?
    ensures !ViewIsFinal(m, id) && ViewExtendsClass(m, id) == TopType() && ViewConstructors(m, id) == []
  {
  }

  // ---------------------------------------------------------------------
  // Fields.
  // ---------------------------------------------------------------------

  /** `field` / `staticField`: a name already used by a field of this
      definition is rejected first; then the field builder rejects a void
      type; either way nothing changes. On success the new field is
      allocated, entered in the name map, and appended to the init ordering
      of its residence only. */
  function AddField(m: CodeModel, id: ObjId, isStatic: bool, fieldType: Type, name: Name): (s: Step<FieldId>)
    requires id < |m.objects|
    ensures |s.model.objects| == |m.objects|
    ensures s.outcome.Failure? ==> s.model == m
    ensures name in m.objects[id].fields ==> s.outcome == Failure(ModelError(QualifiedName(m, id) + "." + name + " already defined"))
    ensures name !in m.objects[id].fields && fieldType.IsVoid() ==>
              s.outcome == Failure(ModelError("void is not allowed here"))
    ensures s.outcome.Success? <==> name !in m.objects[id].fields && !fieldType.IsVoid()
    ensures s.outcome.Success? ==>
              var o := m.objects[id];
              var o' := s.model.objects[id];
              var fid := s.outcome.value;
              && fid == |m.fields| && |s.model.fields| == |m.fields| + 1
              && s.model.fields[..|m.fields|] == m.fields
              && Declaration(s.model.fields[fid]) == FieldDeclaration(name, fieldType, isStatic, id, false, false)
              && s.model.fields[fid].owner == id
              && o'.fields == o.fields[name := fid]
              && (isStatic ==> o'.staticInitOrdering == o.staticInitOrdering + [fid]
                               && o'.instanceInitOrdering == o.instanceInitOrdering)
              && (!isStatic ==> o'.instanceInitOrdering == o.instanceInitOrdering + [fid]
                                && o'.staticInitOrdering == o.staticInitOrdering)
              && o' == o.(fields := o'.fields, staticInitOrdering := o'.staticInitOrdering,
                          instanceInitOrdering := o'.instanceInitOrdering)
              && s.model.objects == m.objects[id := o'] && s.model.executables == m.executables
    ensures Valid(m) ==> Valid(s.model)
  {
    var o := m.objects[id];
    if name in o.fields then Step(m, Failure(ModelError(QualifiedName(m, id) + "." + name + " already defined")))
    else match NewField(isStatic, id, fieldType, name)
      case Failure(e) => Step(m, Failure(e))
      case Success(f) =>
        var fid := |m.fields|;
        var m1 := m.(fields := m.fields + [f]);
        var o' := if isStatic then o.(fields := o.fields[name := fid], staticInitOrdering := o.staticInitOrdering + [fid])
                  else o.(fields := o.fields[name := fid], instanceInitOrdering := o.instanceInitOrdering + [fid]);
        AddFieldValid(m, id, f, o');
        Step(UpdateObject(m1, id, o'), Success(fid))
  }

  lemma AddFieldValid(m: CodeModel, id: ObjId, f: FieldDef, o': ObjectDef)
    requires id < |m.objects| && f.owner == id
    requires o'.residence == m.objects[id].residence
    requires forall n :: n in o'.fields ==> n in m.objects[id].fields || o'.fields[n] == |m.fields|
    requires forall n :: n in m.objects[id].fields && n in o'.fields ==> o'.fields[n] == m.objects[id].fields[n] || o'.fields[n] == |m.fields|
    requires o'.innerClasses == m.objects[id].innerClasses
    requires o'.methods == m.objects[id].methods && o'.constructors == m.objects[id].constructors
    ensures Valid(m) ==> Valid(UpdateObject(m.(fields := m.fields + [f]), id, o'))
  {
    if Valid(m) {
      var m1 := m.(fields := m.fields + [f]);
      AppendFieldValid(m, f);
      UpdateObjectValid(m1, id, o');
    }
  }

  function Field(m: CodeModel, id: ObjId, fieldType: Type, name: Name): (s: Step<FieldId>)
    requires id < |m.objects|
    ensures |s.model.objects| == |m.objects|
    ensures s.outcome.Success? ==>
              && s.outcome.value < |s.model.fields|
              && !s.model.fields[s.outcome.value].isStatic
              && |s.model.objects[id].instanceInitOrdering| == |m.objects[id].instanceInitOrdering| + 1
              && s.model.objects[id].staticInitOrdering == m.objects[id].staticInitOrdering
  {
    AddField(m, id, false, fieldType, name)
  }

  function StaticField(m: CodeModel, id: ObjId, fieldType: Type, name: Name): (s: Step<FieldId>)
    requires id < |m.objects|
    ensures |s.model.objects| == |m.objects|
    ensures s.outcome.Success? ==>
              && s.outcome.value < |s.model.fields|
              && s.model.fields[s.outcome.value].isStatic
              && |s.model.objects[id].staticInitOrdering| == |m.objects[id].staticInitOrdering| + 1
              && s.model.objects[id].instanceInitOrdering == m.objects[id].instanceInitOrdering
  {
    AddField(m, id, true, fieldType, name)
  }

  /** Field names are unique: adding two fields of one name fails on the
      second call and the first field stays in place, whatever the residence
      of either call. */
  lemma FieldNamesUnique(m: CodeModel, id: ObjId, static1: bool, static2: bool, t1: Type, t2: Type, name: Name)
    requires id < |m.objects|
    requires AddField(m, id, static1, t1, name).outcome.Success?
    ensures var s1 := AddField(m, id, static1, t1, name);
            var s2 := AddField(s1.model, id, static2, t2, name);
            && s2 == Step(s1.model, Failure(ModelError(QualifiedName(s1.model, id) + "." + name + " already defined")))
            && s1.model.fields[s1.model.objects[id].fields[name]].fieldType == t1
  {
  }

  /** Applies a field-builder command to an allocated field. */
  function UpdateField(m: CodeModel, fid: FieldId, c: FieldCommand): (s: Step<()>)
    requires fid < |m.fields|
    ensures s.model.objects == m.objects && s.model.executables == m.executables
    ensures |s.model.fields| == |m.fields|
    ensures forall k :: 0 <= k < |m.fields| && k != fid ==> s.model.fields[k] == m.fields[k]
    ensures s.model.fields[fid] == Apply(m.fields[fid], c)
    ensures s.outcome.Failure? <==> c.InitializeWith? && m.fields[fid].isInitialized
    ensures Valid(m) ==> Valid(s.model)
  {
    var f := m.fields[fid];
    match c
    case SetFinalTo(v) => Step(m.(fields := m.fields[fid := Fields.SetFinal(f, v)]), Success(()))
    case InitializeWith(e) =>
      var r := Initialize(f, e);
      Step(m.(fields := m.fields[fid := r.0]), r.1)
  }

  // ---------------------------------------------------------------------
  // Nested definitions.
  // ---------------------------------------------------------------------

  /** `staticNestedClass` / `innerClass`: a name already used by a nested
      definition is rejected first; then the new builder's constructor
      applies the nesting rule; either way nothing changes. On success the
      new definition is allocated and entered in the nested-definition map
      under `name`. Field names are a separate namespace. */
  function NestedClass(m: CodeModel, owner: ObjId, isStatic: bool, kind: DefinitionKind, name: Name): (s: Step<ObjId>)
    requires owner < |m.objects|
    ensures s.outcome.Failure? ==> s.model == m
    ensures name in m.objects[owner].innerClasses ==> s.outcome == Failure(ModelError(QualifiedName(m, owner) + "." + name + " already defined"))
    ensures name !in m.objects[owner].innerClasses && NestingRuleViolated(kind, Nested(isStatic, owner)) ==>
              s.outcome == Failure(ModelError(NestingMessage))
    ensures s.outcome.Success? <==>
              name !in m.objects[owner].innerClasses && !NestingRuleViolated(kind, Nested(isStatic, owner))
    ensures s.outcome.Success? ==>
              var id := s.outcome.value;
              && id == |m.objects| && |s.model.objects| == |m.objects| + 1
              && s.model.objects[..|m.objects|] == m.objects[owner := s.model.objects[owner]]
              && s.model.objects[owner] == m.objects[owner].(innerClasses := m.objects[owner].innerClasses[name := id])
              && s.model.objects[id] == Blank(DefinitionBuilder, kind, Nested(isStatic, owner), name)
              && s.model.executables == m.executables && s.model.fields == m.fields
    ensures Valid(m) ==> Valid(s.model)
  {
    var o := m.objects[owner];
    if name in o.innerClasses then Step(m, Failure(ModelError(QualifiedName(m, owner) + "." + name + " already defined")))
    else
      var created := NewObjectDefinition(m, kind, Nested(isStatic, owner), name);
      match created.outcome
      case Failure(e) => Step(m, Failure(e))
      case Success(id) =>
        var m1 := created.model;
        NestedClassValid(m, m1, owner, name, id);
        Step(UpdateObject(m1, owner, o.(innerClasses := o.innerClasses[name := id])), Success(id))
  }

  lemma NestedClassValid(m: CodeModel, m1: CodeModel, owner: ObjId, name: Name, id: ObjId)
    requires owner < |m.objects| && AppendedObject(m, m1, id)
    requires Valid(m) ==> Valid(m1)
    ensures Valid(m) ==> Valid(UpdateObject(m1, owner, m.objects[owner].(innerClasses := m.objects[owner].innerClasses[name := id])))
  {
    if Valid(m) {
      var o := m.objects[owner];
      assert m1.objects[owner] == o;
      MembersAllocatedGrow(o, |m.objects|, |m.executables|, |m.fields|, |m1.objects|, |m1.executables|, |m1.fields|);
      UpdateObjectValid(m1, owner, o.(innerClasses := o.innerClasses[name := id]));
    }
  }

  function StaticNestedClass(m: CodeModel, owner: ObjId, kind: DefinitionKind, name: Name): (s: Step<ObjId>)
    requires owner < |m.objects|
    ensures s.outcome.Success? <==> name !in m.objects[owner].innerClasses
  {
    NestedClass(m, owner, true, kind, name)
  }

  /** `innerClass` of an interface, enum or annotation always fails, and the
      nested-definition map is unchanged. */
  function InnerClass(m: CodeModel, owner: ObjId, kind: DefinitionKind, name: Name): (s: Step<ObjId>)
    requires owner < |m.objects|
    ensures !kind.Class? ==> s.outcome.Failure? && s.model == m
    ensures kind.Class? ==> (s.outcome.Success? <==> name !in m.objects[owner].innerClasses)
  {
    NestedClass(m, owner, false, kind, name)
  }

  /** Field names and nested-definition names do not collide: a field and a
      nested class may share a name, in either order. */
  lemma SeparateNamespaces(m: CodeModel, id: ObjId, fieldType: Type, name: Name, isStatic: bool, kind: DefinitionKind)
    requires id < |m.objects|
    requires name !in m.objects[id].fields && name !in m.objects[id].innerClasses
    requires !fieldType.IsVoid() && (isStatic || kind.Class?)
    ensures var s1 := AddField(m, id, false, fieldType, name);
            s1.outcome.Success? && NestedClass(s1.model, id, isStatic, kind, name).outcome.Success?
    ensures var s1 := NestedClass(m, id, isStatic, kind, name);
            s1.outcome.Success? && AddField(s1.model, id, false, fieldType, name).outcome.Success?
  {
  }

  // ---------------------------------------------------------------------
  // Methods and constructors.
  // ---------------------------------------------------------------------

  /** `method`, `staticMethod` and `addConstructor`: no name check; a new
      executable builder is allocated in the given residence and the method
      list (respectively the constructor list) grows by exactly it. */
  function AddExecutable(m: CodeModel, owner: ObjId, isConstructor: bool, isStatic: bool, name: Option<Name>): (s: Step<ExecId>)
    requires owner < |m.objects|
    requires isConstructor ==> !isStatic
    ensures s.outcome.Success? && |s.model.objects| == |m.objects|
    ensures var xid := s.outcome.value;
            var o := m.objects[owner];
            var o' := s.model.objects[owner];
            && xid == |m.executables| && |s.model.executables| == |m.executables| + 1
            && s.model.executables[..|m.executables|] == m.executables
            && var e := s.model.executables[xid];
               e.isConstructor == isConstructor && e.isStatic == isStatic && e.parent == owner
               && e.methodName == name && |e.parameters| == 0 && |e.throwsList| == 0
               && e.scope == {} && |e.typeParameters| == 0
    ensures var xid := s.outcome.value;
            var o := m.objects[owner];
            s.model.objects == m.objects[owner := (if isConstructor then o.(constructors := o.constructors + [xid])
                                                   else o.(methods := o.methods + [xid]))]
    ensures s.model.fields == m.fields
    ensures Valid(m) ==> Valid(s.model)
  {
    var o := m.objects[owner];
    var xid := |m.executables|;
    var e := ExecutableDef(isConstructor, name, isStatic, owner, [], {}, [], [], Void);
    var m1 := m.(executables := m.executables + [e]);
    var o' := if isConstructor then o.(constructors := o.constructors + [xid]) else o.(methods := o.methods + [xid]);
    AddExecutableValid(m, e, owner, isConstructor);
    Step(UpdateObject(m1, owner, o'), Success(xid))
  }

  lemma AddExecutableValid(m: CodeModel, e: ExecutableDef, owner: ObjId, isConstructor: bool)
    requires owner < |m.objects| && ExecutableWellFormed(e, |m.objects|)
    ensures var xid := |m.executables|;
            var o := m.objects[owner];
            var o' := if isConstructor then o.(constructors := o.constructors + [xid]) else o.(methods := o.methods + [xid]);
            Valid(m) ==> Valid(UpdateObject(m.(executables := m.executables + [e]), owner, o'))
  {
    if Valid(m) {
      var xid := |m.executables|;
      var o := m.objects[owner];
      var o' := if isConstructor then o.(constructors := o.constructors + [xid]) else o.(methods := o.methods + [xid]);
      var m1 := m.(executables := m.executables + [e]);
      AppendExecutableValid(m, e);
      UpdateObjectValid(m1, owner, o');
    }
  }

  function Method(m: CodeModel, owner: ObjId, name: Name): (s: Step<ExecId>)
    requires owner < |m.objects|
    ensures s.outcome.Success? && |s.model.objects| == |m.objects| && s.outcome.value < |s.model.executables|
    ensures ViewMethods(s.model, owner) == ViewMethods(m, owner) + [s.outcome.value]
    ensures !s.model.executables[s.outcome.value].isStatic
  {
    AddExecutable(m, owner, false, false, Some(name))
  }

  function StaticMethod(m: CodeModel, owner: ObjId, name: Name): (s: Step<ExecId>)
    requires owner < |m.objects|
    ensures s.outcome.Success? && |s.model.objects| == |m.objects| && s.outcome.value < |s.model.executables|
    ensures ViewMethods(s.model, owner) == ViewMethods(m, owner) + [s.outcome.value]
    ensures s.model.executables[s.outcome.value].isStatic
  {
    AddExecutable(m, owner, false, true, Some(name))
  }

  /** `addConstructor` of both builders: one instance-residence constructor
      more, visible through the view of a class builder. An interface
      builder offers no `addConstructor`; the model accepts it as a target
      (an over-approximation) and its view keeps reporting no constructors. */
  function AddConstructor(m: CodeModel, owner: ObjId): (s: Step<ExecId>)
    requires owner < |m.objects|
    ensures s.outcome.Success? && |s.model.objects| == |m.objects|
    ensures s.model.objects[owner].constructors == m.objects[owner].constructors + [s.outcome.value]
    ensures !m.objects[owner].flavour.InterfaceBuilder? ==>
              ViewConstructors(s.model, owner) == ViewConstructors(m, owner) + [s.outcome.value]
    ensures ViewMethods(s.model, owner) == ViewMethods(m, owner)
  {
    AddExecutable(m, owner, true, false, None)
  }

  /** A class builder's view: `isFinal()` is the last value given to
      `setFinal` (initially false), `extendsClass()` is the top object type
      until a superclass is set, and the definition is never anonymous. */
  lemma ClassBuilderView(m: CodeModel, residence: Residence, name: Name, values: seq<bool>)
    requires residence.Nested? ==> residence.parent < |m.objects|
    ensures var s := NewClassBuilder(m, residence, name);
            var id := s.outcome.value;
            && !ViewIsFinal(s.model, id)
            && ViewExtendsClass(s.model, id) == TopType()
            && !ViewIsAnonymous(s.model, id)
            && ViewIsFinal(SetFinalAll(s.model, id, values), id) == (if |values| == 0 then false else values[|values| - 1])
  {
    var s := NewClassBuilder(m, residence, name);
    SetFinalAllLast(s.model, s.outcome.value, values);
  }

  /** `setFinal` applied with each of `values` in turn. */
  function SetFinalAll(m: CodeModel, id: ObjId, values: seq<bool>): (m': CodeModel)
    requires id < |m.objects|
    ensures |m'.objects| == |m.objects| && m'.objects[id].flavour == m.objects[id].flavour
    decreases |values|
  {
    if |values| == 0 then m else SetFinalAll(SetDefinitionFinal(m, id, values[0]), id, values[1..])
  }

  lemma {:induction false} SetFinalAllLast(m: CodeModel, id: ObjId, values: seq<bool>)
    requires id < |m.objects| && !m.objects[id].flavour.InterfaceBuilder?
    ensures ViewIsFinal(SetFinalAll(m, id, values), id) ==
              (if |values| == 0 then ViewIsFinal(m, id) else values[|values| - 1])
    decreases |values|
  {
    if |values| > 0 {
      SetFinalAllLast(SetDefinitionFinal(m, id, values[0]), id, values[1..]);
    }
  }
}
