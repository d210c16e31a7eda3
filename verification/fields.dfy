/** `FieldBuilder`: a field declaration whose name and type are fixed at
    construction, whose finality may be changed at will, and which may be
    given an initializer at most once.
 */
module Fields {
  import opened Wrappers
  import opened Types

  /** An initializer expression; method bodies and expressions are opaque to
      the declaration model. */
  datatype Expression = Expression(code: string)

  /** Builder state of one field. `owner` is the declaring definition and
      `isStatic` the static/instance residence inside it. */
  datatype FieldDef = FieldDef(
    isStatic: bool,
    owner: ObjId,
    fieldType: Type,
    name: Name,
    isFinal: bool,
    isInitialized: bool,
    initializer: Option<Expression>)

  /** The `FieldDeclaration` view reported by a field builder; its
      residence is the static flag together with the declaring definition. */
  datatype FieldDeclaration = FieldDeclaration(
    name: Name,
    fieldType: Type,
    isStatic: bool,
    owner: ObjId,
    isInitialized: bool,
    isFinal: bool)

  function Declaration(f: FieldDef): (d: FieldDeclaration)
    ensures d.name == f.name && d.fieldType == f.fieldType && d.isStatic == f.isStatic && d.owner == f.owner
    ensures d.isInitialized == f.isInitialized && d.isFinal == f.isFinal
  {
    FieldDeclaration(f.name, f.fieldType, f.isStatic, f.owner, f.isInitialized, f.isFinal)
  }

  /** The `FieldBuilder` constructor: a void type is rejected; otherwise the
      field starts out neither final nor initialized. */
  function NewField(isStatic: bool, owner: ObjId, fieldType: Type, name: Name): (r: Result<FieldDef>)
    ensures r.Failure? <==> fieldType.IsVoid()
    ensures r.Failure? ==> r.error == ModelError("void is not allowed here")
    ensures r.Success? ==> var d := Declaration(r.value);
              d.name == name && d.fieldType == fieldType && d.isStatic == isStatic
              && d.owner == owner && !d.isFinal && !d.isInitialized
  {
    if fieldType.IsVoid() then Failure(ModelError("void is not allowed here"))
    else Success(FieldDef(isStatic, owner, fieldType, name, false, false, None))
  }

  /** `setFinal`: may be called any number of times; only finality changes. */
  function SetFinal(f: FieldDef, value: bool): (r: FieldDef)
    ensures Declaration(r).isFinal == value
    ensures r.(isFinal := f.isFinal) == f
  {
    f.(isFinal := value)
  }

  /** `initialize`: succeeds on a field not yet initialized, and then only
      the initializer changes; a second call fails and keeps the first
      initializer. */
  function Initialize(f: FieldDef, e: Expression): (r: (FieldDef, Result<()>))
    ensures f.isInitialized ==> r == (f, Failure(IllegalState("Field already initialized")))
    ensures !f.isInitialized ==> r.1.Success? && Declaration(r.0).isInitialized && r.0.initializer == Some(e)
    ensures r.0.(isInitialized := f.isInitialized, initializer := f.initializer) == f
  {
    if f.isInitialized then (f, Failure(IllegalState("Field already initialized")))
    else (f.(isInitialized := true, initializer := Some(e)), Success(()))
  }

  /** The mutations a caller can apply to a field builder. */
  datatype FieldCommand = SetFinalTo(value: bool) | InitializeWith(e: Expression)

  function Apply(f: FieldDef, c: FieldCommand): FieldDef {
    match c
    case SetFinalTo(v) => SetFinal(f, v)
    case InitializeWith(e) => Initialize(f, e).0
  }

  function ApplyAll(f: FieldDef, cs: seq<FieldCommand>): FieldDef
    decreases |cs|
  {
    if |cs| == 0 then f else ApplyAll(Apply(f, cs[0]), cs[1..])
  }

  /** The finality after `cs`: the value of the last `SetFinalTo`, or
      `initial` when there is none. */
  function LastFinal(initial: bool, cs: seq<FieldCommand>): bool
    decreases |cs|
  {
    if |cs| == 0 then initial
    else if cs[|cs| - 1].SetFinalTo? then cs[|cs| - 1].value
    else LastFinal(initial, cs[..|cs| - 1])
  }

  /** Index of the first `InitializeWith` in `cs`, or `|cs|` when there is
      none. */
  function FirstInitialize(cs: seq<FieldCommand>): (k: nat)
    ensures k <= |cs|
    ensures forall i :: 0 <= i < k ==> !cs[i].InitializeWith?
    ensures k < |cs| ==> cs[k].InitializeWith?
    decreases |cs|
  {
    if |cs| == 0 then 0
    else if cs[0].InitializeWith? then 0
    else 1 + FirstInitialize(cs[1..])
  }

  lemma {:induction false} ApplyAllSnoc(f: FieldDef, cs: seq<FieldCommand>, c: FieldCommand)
    ensures ApplyAll(f, cs + [c]) == Apply(ApplyAll(f, cs), c)
    decreases |cs|
  {
    if |cs| > 0 {
      assert (cs + [c])[1..] == cs[1..] + [c];
      ApplyAllSnoc(Apply(f, cs[0]), cs[1..], c);
    }
  }

  /** Over any sequence of builder calls: the name, the type and the
      residence (static flag and owner) never change,
      the field is final exactly as the last `setFinal` said (not final if
      never called), and the field is initialized with the FIRST initializer
      ever supplied, later ones being rejected. */
  lemma {:induction false} FieldHistory(f: FieldDef, cs: seq<FieldCommand>)
    requires !f.isFinal && !f.isInitialized && f.initializer.None?
    ensures var g := ApplyAll(f, cs);
            && g.name == f.name && g.fieldType == f.fieldType && g.isStatic == f.isStatic && g.owner == f.owner
            && g.isFinal == LastFinal(false, cs)
            && (g.isInitialized <==> FirstInitialize(cs) < |cs|)
            && (FirstInitialize(cs) < |cs| ==> g.initializer == Some(cs[FirstInitialize(cs)].e))
            && (FirstInitialize(cs) == |cs| ==> g.initializer.None?)
    decreases |cs|
  {
    if |cs| > 0 {
      var init := cs[..|cs| - 1];
      var last := cs[|cs| - 1];
      assert init + [last] == cs;
      FieldHistory(f, init);
      ApplyAllSnoc(f, init, last);
      FirstInitializeSnoc(init, last);
    }
  }

  lemma {:induction false} FirstInitializeSnoc(cs: seq<FieldCommand>, c: FieldCommand)
    ensures FirstInitialize(cs) < |cs| ==> FirstInitialize(cs + [c]) == FirstInitialize(cs)
    ensures FirstInitialize(cs) == |cs| ==>
              FirstInitialize(cs + [c]) == (if c.InitializeWith? then |cs| else |cs| + 1)
    decreases |cs|
  {
    if |cs| > 0 {
      assert (cs + [c])[1..] == cs[1..] + [c];
      FirstInitializeSnoc(cs[1..], c);
    }
  }
}
