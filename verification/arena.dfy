/** The declaration graph as an arena. Builders in the Java code hold each
    other through `definition()` handles that escape before the builder is
    finished, and definitions may refer to themselves or to each other
    cyclically. Here every object definition, executable definition and
    field lives in one `CodeModel` value and is referred to by its index, so
    a handle is valid as soon as the entry exists and every view reads the
    current state of the entry.
 */
module Arena {
  import opened Wrappers
  import opened Types
  import opened Fields

  type FieldId = nat

  /** The source's `ObjectKind`. */
  datatype DefinitionKind = Class | Interface | Enum | Annotation
  {
    predicate IsClass() { Class? }
    predicate IsInterface() { Interface? }
  }

  /** Where a definition lives: at top level, or nested in `parent`, either
      statically or as an instance member. */
  datatype Residence = TopLevel | Nested(isStatic: bool, parent: ObjId)

  /** Which builder class owns an object definition; the three differ in
      what their `definition()` view answers. */
  datatype Flavour = DefinitionBuilder | ClassBuilder | InterfaceBuilder

  /** Builder state of an object definition (`ObjectDefinitionBuilder`,
      `ClassBuilder`, `InterfaceBuilder`). `fields` and `innerClasses` are the
      name-keyed maps; the two init orderings record, per residence, the
      order in which fields were added. */
  datatype ObjectDef = ObjectDef(
    flavour: Flavour,
    name: Name,
    kind: DefinitionKind,
    residence: Residence,
    typeParameters: seq<Name>,
    isFinal: bool,
    superclass: Option<ObjectType>,
    interfaces: seq<ObjectType>,
    fields: map<Name, FieldId>,
    staticInitOrdering: seq<FieldId>,
    instanceInitOrdering: seq<FieldId>,
    innerClasses: map<Name, ObjId>,
    methods: seq<ExecId>,
    constructors: seq<ExecId>)

  /** One formal parameter of an executable. */
  datatype Parameter = Parameter(isFinal: bool, paramType: Type, name: Name)

  /** Builder state of a method or constructor (`ExecutableBuilder`).
      `methodName` is `None` for constructors; `scope` holds the names
      introduced into the executable's variable scope; `resultType` is a
      method's declared result type. */
  datatype ExecutableDef = ExecutableDef(
    isConstructor: bool,
    methodName: Option<Name>,
    isStatic: bool,
    parent: ObjId,
    typeParameters: seq<Name>,
    scope: set<Name>,
    parameters: seq<Parameter>,
    throwsList: seq<Type>,
    resultType: Type)

  datatype CodeModel = CodeModel(
    objects: seq<ObjectDef>,
    executables: seq<ExecutableDef>,
    fields: seq<FieldDef>)

  /** The state after a builder call together with what the call returned
      or threw. A failing call may or may not have changed the state; each
      operation's contract says which. */
  datatype Step<T> = Step(model: CodeModel, outcome: Result<T>)

  /** The code model's top object type (`java.lang.Object`) is the first
      entry of every arena. */
  const TopId: ObjId := 0

  function TopType(): ObjectType {
    ObjectType(TopId, [], None)
  }

  /** An object definition as its builder's constructor leaves it: not final,
      no supertypes, no members. */
  function Blank(flavour: Flavour, kind: DefinitionKind, residence: Residence, name: Name): ObjectDef {
    ObjectDef(flavour, name, kind, residence, [], false, None, [], map[], [], [], map[], [], [])
  }

  predicate IsBlank(o: ObjectDef) {
    && !o.isFinal && o.superclass.None? && |o.interfaces| == 0 && |o.typeParameters| == 0
    && o.fields == map[] && o.innerClasses == map[] && |o.methods| == 0 && |o.constructors| == 0
    && |o.staticInitOrdering| == 0 && |o.instanceInitOrdering| == 0
  }

  /** A fresh session: only the top object type exists. */
  function Empty(): (m: CodeModel)
    ensures Valid(m)
  {
    CodeModel([Blank(DefinitionBuilder, Class, TopLevel, "Object")], [], [])
  }

  // ---------------------------------------------------------------------
  // Structural invariant of every arena the builders produce.
  // ---------------------------------------------------------------------

  /** Every member handle an object definition holds is allocated. */
  predicate MembersAllocated(o: ObjectDef, objectCount: nat, executableCount: nat, fieldCount: nat) {
    && (forall n :: n in o.fields ==> o.fields[n] < fieldCount)
    && (forall n :: n in o.innerClasses ==> o.innerClasses[n] < objectCount)
    && (forall j :: 0 <= j < |o.methods| ==> o.methods[j] < executableCount)
    && (forall j :: 0 <= j < |o.constructors| ==> o.constructors[j] < executableCount)
  }

  /** Parameter names of one executable are pairwise distinct. */
  predicate ParameterNamesDistinct(ps: seq<Parameter>) {
    forall i, j :: 0 <= i < j < |ps| ==> ps[i].name != ps[j].name
  }

  /** Every parameter name has been introduced into the executable's scope. */
  predicate ParametersScoped(e: ExecutableDef) {
    forall i :: 0 <= i < |e.parameters| ==> e.parameters[i].name in e.scope
  }

  predicate ExecutableWellFormed(e: ExecutableDef, objectCount: nat) {
    && e.parent < objectCount
    && (e.isConstructor ==> !e.isStatic)
    && ParametersScoped(e)
    && ParameterNamesDistinct(e.parameters)
  }

  /** The arena invariant: the top type exists, every nested definition's
      parent was allocated before it (so residence chains are finite), every
      handle points to an allocated entry, constructors are instance
      members, and parameter names are distinct and in scope.

      The arena over-approximates the program in one respect: entry 0, the
      top type, is an ordinary entry, so the builder operations accept it
      as their target, although the program hands out no builder for it. */
  predicate Valid(m: CodeModel) {
    && |m.objects| > 0
    && (forall i :: 0 <= i < |m.objects| && m.objects[i].residence.Nested? ==> m.objects[i].residence.parent < i)
    && (forall i :: 0 <= i < |m.objects| ==>
          MembersAllocated(m.objects[i], |m.objects|, |m.executables|, |m.fields|))
    && (forall j :: 0 <= j < |m.executables| ==> ExecutableWellFormed(m.executables[j], |m.objects|))
    && (forall k :: 0 <= k < |m.fields| ==> m.fields[k].owner < |m.objects|)
  }

  lemma MembersAllocatedGrow(o: ObjectDef, a: nat, b: nat, c: nat, a': nat, b': nat, c': nat)
    requires MembersAllocated(o, a, b, c)
    requires a <= a' && b <= b' && c <= c'
    ensures MembersAllocated(o, a', b', c')
  {
  }

  /** Replace one object definition, keeping everything else. */
  function UpdateObject(m: CodeModel, id: ObjId, o: ObjectDef): (m': CodeModel)
    requires id < |m.objects|
    ensures |m'.objects| == |m.objects| && m'.objects[id] == o
    ensures forall i :: 0 <= i < |m.objects| && i != id ==> m'.objects[i] == m.objects[i]
    ensures m'.executables == m.executables && m'.fields == m.fields
  {
    m.(objects := m.objects[id := o])
  }

  /** Replacing an object definition by one with the same residence and
      allocated members keeps the arena valid. */
  lemma UpdateObjectValid(m: CodeModel, id: ObjId, o: ObjectDef)
    requires Valid(m) && id < |m.objects|
    requires o.residence == m.objects[id].residence
    requires MembersAllocated(o, |m.objects|, |m.executables|, |m.fields|)
    ensures Valid(UpdateObject(m, id, o))
  {
  }

  /** Appending a new object definition whose parent (if any) is already
      allocated keeps the arena valid. */
  lemma AppendObjectValid(m: CodeModel, o: ObjectDef)
    requires Valid(m)
    requires o.residence.Nested? ==> o.residence.parent < |m.objects|
    requires MembersAllocated(o, |m.objects| + 1, |m.executables|, |m.fields|)
    ensures Valid(m.(objects := m.objects + [o]))
  {
    var m' := m.(objects := m.objects + [o]);
    forall i | 0 <= i < |m'.objects|
      ensures MembersAllocated(m'.objects[i], |m'.objects|, |m'.executables|, |m'.fields|)
    {
      if i < |m.objects| {
        MembersAllocatedGrow(m.objects[i], |m.objects|, |m.executables|, |m.fields|,
                             |m'.objects|, |m'.executables|, |m'.fields|);
      }
    }
  }

  /** Appending a well-formed executable keeps the arena valid. */
  lemma AppendExecutableValid(m: CodeModel, e: ExecutableDef)
    requires Valid(m) && ExecutableWellFormed(e, |m.objects|)
    ensures Valid(m.(executables := m.executables + [e]))
  {
    var m' := m.(executables := m.executables + [e]);
    forall i | 0 <= i < |m'.objects|
      ensures MembersAllocated(m'.objects[i], |m'.objects|, |m'.executables|, |m'.fields|)
    {
      MembersAllocatedGrow(m.objects[i], |m.objects|, |m.executables|, |m.fields|,
                           |m'.objects|, |m'.executables|, |m'.fields|);
    }
  }

  /** Appending a field of an allocated owner keeps the arena valid. */
  lemma AppendFieldValid(m: CodeModel, f: FieldDef)
    requires Valid(m) && f.owner < |m.objects|
    ensures Valid(m.(fields := m.fields + [f]))
  {
    var m' := m.(fields := m.fields + [f]);
    forall i | 0 <= i < |m'.objects|
      ensures MembersAllocated(m'.objects[i], |m'.objects|, |m'.executables|, |m'.fields|)
    {
      MembersAllocatedGrow(m.objects[i], |m.objects|, |m.executables|, |m.fields|,
                           |m'.objects|, |m'.executables|, |m'.fields|);
    }
  }

  /** Replacing an executable by a well-formed one keeps the arena valid. */
  lemma UpdateExecutableValid(m: CodeModel, id: ExecId, e: ExecutableDef)
    requires Valid(m) && id < |m.executables| && ExecutableWellFormed(e, |m.objects|)
    ensures Valid(m.(executables := m.executables[id := e]))
  {
  }

  // ---------------------------------------------------------------------
  // The `definition()` view of an object builder, read live.
  // ---------------------------------------------------------------------

  function ViewName(m: CodeModel, id: ObjId): Name
    requires id < |m.objects|
  {
    m.objects[id].name
  }

  /** `qualifiedName()`: a nested definition's name is prefixed with its
      parent's qualified name and a dot. The chain is followed only towards
      lower handles, which in a valid arena is every step. */
  function QualifiedName(m: CodeModel, id: ObjId): (r: Name)
    requires id < |m.objects|
    ensures m.objects[id].residence.TopLevel? ==> r == m.objects[id].name
    ensures |r| >= |m.objects[id].name| && r[|r| - |m.objects[id].name|..] == m.objects[id].name
    decreases id
  {
    var o := m.objects[id];
    if o.residence.Nested? && o.residence.parent < id then QualifiedName(m, o.residence.parent) + "." + o.name
    else o.name
  }

  function ViewKind(m: CodeModel, id: ObjId): DefinitionKind
    requires id < |m.objects|
  {
    m.objects[id].kind
  }

  /** `isFinal()`: the stored flag, except that an interface builder always
      answers false. */
  function ViewIsFinal(m: CodeModel, id: ObjId): (r: bool)
    requires id < |m.objects|
    ensures m.objects[id].flavour.InterfaceBuilder? ==> !r
    ensures !m.objects[id].flavour.InterfaceBuilder? ==> r == m.objects[id].isFinal
  {
    match m.objects[id].flavour
    case InterfaceBuilder => false
    case _ => m.objects[id].isFinal
  }

  /** `extendsClass()`: the stored superclass, or the top object type when
      none was set; an interface builder always answers the top type. */
  function ViewExtendsClass(m: CodeModel, id: ObjId): (r: ObjectType)
    requires id < |m.objects|
    ensures m.objects[id].flavour.InterfaceBuilder? || m.objects[id].superclass.None? ==> r == TopType()
    ensures !m.objects[id].flavour.InterfaceBuilder? && m.objects[id].superclass.Some? ==>
              r == m.objects[id].superclass.value
  {
    var o := m.objects[id];
    if o.flavour.InterfaceBuilder? then TopType()
    else match o.superclass
      case None => TopType()
      case Some(t) => t
  }

  /** `implementsInterfaces()`: the implemented (or, for an interface
      builder, extended) interfaces in insertion order. */
  function ViewInterfaces(m: CodeModel, id: ObjId): seq<ObjectType>
    requires id < |m.objects|
  {
    m.objects[id].interfaces
  }

  /** `constructors()`: the added constructors in order; always empty for an
      interface builder. A plain definition builder keeps its constructor
      list private and its built definition does not override
      `constructors()`, so the answer given here for that flavour is the
      model's own choice, not something the source states. */
  function ViewConstructors(m: CodeModel, id: ObjId): (r: seq<ExecId>)
    requires id < |m.objects|
    ensures m.objects[id].flavour.InterfaceBuilder? ==> r == []
    ensures !m.objects[id].flavour.InterfaceBuilder? ==> r == m.objects[id].constructors
  {
    if m.objects[id].flavour.InterfaceBuilder? then [] else m.objects[id].constructors
  }

  function ViewMethods(m: CodeModel, id: ObjId): seq<ExecId>
    requires id < |m.objects|
  {
    m.objects[id].methods
  }

  function ViewFields(m: CodeModel, id: ObjId): map<Name, FieldId>
    requires id < |m.objects|
  {
    m.objects[id].fields
  }

  function ViewInnerClasses(m: CodeModel, id: ObjId): map<Name, ObjId>
    requires id < |m.objects|
  {
    m.objects[id].innerClasses
  }

  /** `isAnonymous()`: the class and interface builders always answer
      false; the general definition builder does not define it. */
  function ViewIsAnonymous(m: CodeModel, id: ObjId): (r: bool)
    requires id < |m.objects| && !m.objects[id].flavour.DefinitionBuilder?
    ensures !r
  {
    false
  }

  /** A definition is generic when it declares type parameters of its own. */
  predicate IsGeneric(m: CodeModel, id: ObjId)
    requires id < |m.objects|
  {
    |m.objects[id].typeParameters| > 0
  }

  /** Own type-parameter names of each object definition (none for an
      unallocated handle). */
  function ObjectParametersOf(m: CodeModel): ObjId -> seq<Name> {
    (id: ObjId) => if id < |m.objects| then m.objects[id].typeParameters else []
  }

  /** Own type-parameter names of each executable definition. */
  function ExecutableParametersOf(m: CodeModel): ExecId -> seq<Name> {
    (id: ExecId) => if id < |m.executables| then m.executables[id].typeParameters else []
  }
}
