/**
 * A property body: one layer of a property's implementation in a type,
 * with its implementation kind, its flags and its initial value or
 * initializer.
 */
module Properties {
  import opened Base

  /** How a body is implemented; `OtherImpl` stands for every kind a property body may not take. */
  datatype Implementation = Implicit | Declared | Delegating | Native | Explicit | OtherImpl

  /** The structure of a property: its identity, its name and the names of its property annotations. */
  datatype PropertyStructure = PropertyStructure(id: nat, name: string, annotations: seq<string>)

  /** A type parameter: its name and the type constraining it. */
  datatype ParamInfo = ParamInfo(name: string, constraint: nat)

  /** A type: a named one, or the type of the types constrained by a type. */
  datatype Ty = Named(id: nat) | TypeOf(constraint: nat)

  datatype PropertyBody = PropertyBody(
    structure: PropertyStructure,
    impl: Implementation,
    delegatee: Option<nat>,
    paramInfo: Option<ParamInfo>,
    typ: Ty,
    ro: bool,
    rw: bool,
    custom: bool,
    field: bool,
    constant: bool,
    initVal: Option<nat>,
    initFunc: Option<nat>)

  /** The flags of a body (read-only, read-write, custom code, field, constant). */
  datatype Flags = Flags(ro: bool, rw: bool, custom: bool, field: bool, constant: bool)

  /** A permitted implementation kind. */
  predicate Permitted(impl: Implementation) {
    impl != OtherImpl
  }

  /** Exactly one of two optional references is present. */
  predicate ExactlyOne<A, B>(a: Option<A>, b: Option<B>) {
    a.Some? != b.Some?
  }

  /**
   * The invariants every body keeps: a permitted kind; a delegatee exactly
   * when delegating; never both an initial value and an initializer; and a
   * constant has exactly one of them.
   */
  predicate WellFormed(b: PropertyBody) {
    && Permitted(b.impl)
    && (b.impl == Delegating <==> b.delegatee.Some?)
    && !(b.initVal.Some? && b.initFunc.Some?)
    && (b.constant ==> ExactlyOne(b.initVal, b.initFunc))
  }

  /** The general constructor: it refuses arguments that break the invariants. */
  function NewBody(structure: Option<PropertyStructure>, impl: Implementation, constProp: Option<nat>, typ: Option<Ty>,
                   flags: Flags, initVal: Option<nat>, initFunc: Option<nat>): (r: Result<PropertyBody>)
    ensures r.Ok? <==> (&& structure.Some? && typ.Some? && Permitted(impl)
                        && (impl == Delegating <==> constProp.Some?)
                        && !(initVal.Some? && initFunc.Some?)
                        && (flags.constant ==> ExactlyOne(initVal, initFunc)))
    ensures r.Err? ==> r.fault == IllegalState
    ensures r.Ok? ==> WellFormed(r.value) && !IsTypeParam(r.value)
    ensures r.Ok? ==> r.value.structure == structure.value && r.value.typ == typ.value && r.value.impl == impl
                      && r.value.delegatee == constProp && r.value.initVal == initVal && r.value.initFunc == initFunc
                      && FlagsOf(r.value) == flags
  {
    if structure.None? || typ.None? || !Permitted(impl) then Err(IllegalState)
    else if (impl == Delegating) == constProp.None? then Err(IllegalState)
    else if initVal.Some? && initFunc.Some? then Err(IllegalState)
    else if flags.constant && !ExactlyOne(initVal, initFunc) then Err(IllegalState)
    else Ok(PropertyBody(structure.value, impl, constProp, None, typ.value,
                         flags.ro, flags.rw, flags.custom, flags.field, flags.constant, initVal, initFunc))
  }

  function FlagsOf(b: PropertyBody): Flags {
    Flags(b.ro, b.rw, b.custom, b.field, b.constant)
  }

  /** The constructor for a type parameter: the parameter must have the property's name. */
  function TypeParamBody(structure: Option<PropertyStructure>, param: Option<ParamInfo>): (r: Result<PropertyBody>)
    ensures r.Ok? <==> structure.Some? && param.Some? && structure.value.name == param.value.name
    ensures r.Err? ==> r.fault == IllegalState
  {
    if structure.None? || param.None? || structure.value.name != param.value.name then Err(IllegalState)
    else Ok(PropertyBody(structure.value, Native, None, param, TypeOf(param.value.constraint),
                         true, false, false, false, false, None, None))
  }

  /** A body is for a type parameter when it carries the parameter. */
  function IsTypeParam(b: PropertyBody): (r: bool)
    ensures r <==> b.paramInfo.Some?
  {
    b.paramInfo.Some?
  }

  /** The property carries the "Abstract" annotation. */
  predicate IsExplicitAbstract(b: PropertyBody) {
    "Abstract" in b.structure.annotations
  }

  /** `isAbstract`: delegating and native bodies are not, explicit ones when annotated, the rest are. */
  function IsAbstract(b: PropertyBody): (r: bool)
    ensures r ==> b.impl != Delegating && b.impl != Native
    ensures b.impl == Implicit || b.impl == Declared ==> r
  {
    match b.impl
    case Delegating => false
    case Native => false
    case Explicit => IsExplicitAbstract(b)
    case _ => true
  }

  /**
   * A type-parameter body is well formed, native, read-only and not
   * read-write, has no custom code, field, constant or initializer, is
   * typed by the parameter's constraint, and is not abstract.
   */
  lemma TypeParamBodyOutcome(s: PropertyStructure, p: ParamInfo)
    requires s.name == p.name
    ensures var r := TypeParamBody(Some(s), Some(p));
            && r.Ok? && WellFormed(r.value) && IsTypeParam(r.value)
            && r.value.impl == Native && r.value.ro && !r.value.rw
            && !r.value.custom && !r.value.field && !r.value.constant
            && r.value.initVal.None? && r.value.initFunc.None? && r.value.delegatee.None?
            && r.value.typ == TypeOf(p.constraint)
            && !IsAbstract(r.value)
  {
  }

  /**
   * Whether a body is abstract, by kind: a delegating or native body never
   * is; an implicit or declared one always is; an explicit one exactly
   * when annotated "Abstract".
   */
  lemma AbstractByKind(b: PropertyBody)
    requires WellFormed(b)
    ensures IsAbstract(b) ==> b.impl != Delegating && b.impl != Native && b.delegatee.None?
    ensures b.impl == Implicit || b.impl == Declared ==> IsAbstract(b)
    ensures b.impl == Explicit ==> (IsAbstract(b) <==> IsExplicitAbstract(b))
  {
  }

  /**
   * `equals`: the structure, the type, the five flags, the parameter, the
   * initial value and the initializer agree. The kind and the delegatee
   * are not compared.
   */
  function Equals(a: PropertyBody, b: PropertyBody): (r: bool)
    ensures r <==> a.(impl := b.impl, delegatee := b.delegatee) == b
    ensures r ==> a.structure.id == b.structure.id
  {
    && a.structure == b.structure
    && a.typ == b.typ
    && a.ro == b.ro && a.rw == b.rw && a.custom == b.custom && a.field == b.field && a.constant == b.constant
    && a.paramInfo == b.paramInfo
    && a.initVal == b.initVal
    && a.initFunc == b.initFunc
  }

  /** Two bodies are equal exactly when they differ at most in their kind and delegatee. */
  lemma EqualsIgnoresKind(a: PropertyBody, b: PropertyBody)
    ensures Equals(a, b) <==> a.(impl := b.impl, delegatee := b.delegatee) == b
  {
  }

  /** Equality of bodies is an equivalence. */
  lemma EqualsEquivalence(a: PropertyBody, b: PropertyBody, c: PropertyBody)
    ensures Equals(a, a)
    ensures Equals(a, b) ==> Equals(b, a)
    ensures Equals(a, b) && Equals(b, c) ==> Equals(a, c)
  {
  }

  /** The hash code of a body is that of its property's identity. */
  function HashCode(b: PropertyBody): (h: nat)
    ensures forall c :: Equals(b, c) ==> c.structure.id == h
  {
    b.structure.id
  }

  /** Equal bodies have equal hash codes. */
  lemma HashConsistent(a: PropertyBody, b: PropertyBody)
    requires Equals(a, b)
    ensures HashCode(a) == HashCode(b)
  {
  }

  /**
   * An example of the kind being left out of the comparison: a delegating
   * body and a native one built from the same parts are equal, though their
   * kinds differ.
   */
  lemma KindsNotCompared(s: PropertyStructure, t: Ty)
    ensures var f := Flags(false, false, false, false, false);
            var d := NewBody(Some(s), Delegating, Some(7), Some(t), f, None, None);
            var n := NewBody(Some(s), Native, None, Some(t), f, None, None);
            d.Ok? && n.Ok? && Equals(d.value, n.value) && d.value != n.value
  {
  }
}
