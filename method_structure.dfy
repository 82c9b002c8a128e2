/**
 * A method's structure: its annotations, return values and parameters,
 * the role predicates that tell getters, setters and initializers apart,
 * the abstract and native flags, and the code that is built one op at a
 * time.
 */
module Methods {
  import opened Base

  // ----- annotations, types and parameters -----

  /** An annotation: its class, whether it still holds unresolved constants, and whether it applies "into" the method. */
  datatype Annotation = Annotation(cls: nat, unresolved: bool, intoMethod: bool)

  /** A type: a plain one, Void, or an annotated type wrapping another. */
  datatype TypeC = Plain(id: nat) | Void | Annotated(anno: Annotation, inner: TypeC)

  /** A parameter or return value: its type, name, position, and whether it is a type parameter or the conditional return. */
  datatype Param = Param(typ: TypeC, name: string, index: nat, isTypeParam: bool, conditional: bool)

  /** Access in declaration order: public, protected, private, struct. */
  datatype Access = Public | Protected | Private | Struct

  function Ordinal(a: Access): nat {
    match a
    case Public => 0
    case Protected => 1
    case Private => 2
    case Struct => 3
  }

  /** The length of the longest run of type parameters at the head of the parameters. */
  function LeadingTypeParams(ps: seq<Param>): (n: nat)
    ensures n <= |ps|
    ensures forall i :: 0 <= i < n ==> ps[i].isTypeParam
    ensures n < |ps| ==> !ps[n].isTypeParam
  {
    if ps == [] || !ps[0].isTypeParam then 0 else 1 + LeadingTypeParams(ps[1..])
  }

  /** The number of annotations; none when there is no annotation array. */
  function AnnotationCount(annos: Option<seq<Annotation>>): nat {
    if annos.None? then 0 else |annos.value|
  }

  /** `getAnnotation`: the i-th annotation, or nothing for an index out of range. */
  function GetAnnotation(annos: Option<seq<Annotation>>, i: int): (r: Option<Annotation>)
    ensures r.Some? <==> 0 <= i < AnnotationCount(annos)
    ensures r.Some? ==> r.value == annos.value[i]
  {
    if i < 0 || i >= AnnotationCount(annos) then None else Some(annos.value[i])
  }

  /** The first annotation of the given class, if any. */
  function FirstOfClass(a: seq<Annotation>, cls: nat): (r: Option<Annotation>)
    ensures r.Some? ==> r.value in a && r.value.cls == cls
    ensures r.None? <==> forall i :: 0 <= i < |a| ==> a[i].cls != cls
    ensures r.Some? ==> exists i :: 0 <= i < |a| && a[i] == r.value && forall k :: 0 <= k < i ==> a[k].cls != cls
  {
    if a == [] then None
    else if a[0].cls == cls then Some(a[0])
    else
      var r := FirstOfClass(a[1..], cls);
      assert r.Some? ==> exists i :: 0 <= i < |a[1..]| && a[1..][i] == r.value && forall k :: 0 <= k < i ==> a[1..][k].cls != cls;
      if r.Some? then
        var i :| 0 <= i < |a[1..]| && a[1..][i] == r.value && forall k :: 0 <= k < i ==> a[1..][k].cls != cls;
        assert a[i + 1] == r.value && forall k :: 0 <= k < i + 1 ==> a[k].cls != cls;
        r
      else r
  }

  /** The annotations that stay on the method, in their order. */
  function KeptAnnotations(a: seq<Annotation>): (r: seq<Annotation>)
    ensures forall x :: x in r <==> x in a && x.intoMethod
  {
    if a == [] then [] else (if a[0].intoMethod then [a[0]] else []) + KeptAnnotations(a[1..])
  }

  /** The annotations that move to the return type, in their order. */
  function MovedAnnotations(a: seq<Annotation>): (r: seq<Annotation>)
    ensures forall x :: x in r <==> x in a && !x.intoMethod
  {
    if a == [] then [] else (if a[0].intoMethod then [] else [a[0]]) + MovedAnnotations(a[1..])
  }

  /** Every annotation goes to exactly one side, and none is lost or made up. */
  lemma {:induction false} AnnotationsPartitioned(a: seq<Annotation>)
    ensures multiset(KeptAnnotations(a)) + multiset(MovedAnnotations(a)) == multiset(a)
    ensures |KeptAnnotations(a)| + |MovedAnnotations(a)| == |a|
  {
    if a != [] {
      AnnotationsPartitioned(a[1..]);
      assert a == [a[0]] + a[1..];
    }
  }

  /** `t` with the annotations applied, the first outermost. */
  function Wrap(a: seq<Annotation>, t: TypeC): TypeC {
    if a == [] then t else Annotated(a[0], Wrap(a[1..], t))
  }

  /** Peeling the outermost annotation of a wrapped type gives the first annotation and the rest wrapped. */
  lemma WrapOutermost(a: seq<Annotation>, t: TypeC)
    requires a != []
    ensures Wrap(a, t).Annotated? && Wrap(a, t).anno == a[0] && Wrap(a, t).inner == Wrap(a[1..], t)
  {
  }

  /** Wrapping by `a + b` is wrapping by `b` first, then by `a` outside it. */
  lemma {:induction false} WrapAppend(a: seq<Annotation>, b: seq<Annotation>, t: TypeC)
    ensures Wrap(a + b, t) == Wrap(a, Wrap(b, t))
  {
    if a != [] {
      assert (a + b)[0] == a[0] && (a + b)[1..] == a[1..] + b;
      WrapAppend(a[1..], b, t);
    } else {
      assert a + b == b;
    }
  }

  /** Which return value carries the annotations: the first one that is not the conditional flag. */
  function AnnotatedReturn(rets: seq<Param>): int {
    if |rets| == 0 then -1 else if rets[0].conditional then 1 else 0
  }

  /**
   * `addReturnAnnotations`: the chosen return value gets its type wrapped
   * by the annotations, keeps its name, and is no longer conditional.
   */
  function ReturnsAnnotated(rets: seq<Param>, a: seq<Annotation>): (r: Result<seq<Param>>)
    ensures |rets| == 0 ==> r == Err(IllegalState)
    ensures |rets| == 1 && rets[0].conditional ==> r == Err(OutOfBounds)
    ensures r.Ok? ==> |r.value| == |rets|
    ensures r.Ok? ==> var i := AnnotatedReturn(rets);
                      && 0 <= i < |rets| && i == rets[i].index
                      && r.value[i].typ == Wrap(a, rets[i].typ) && r.value[i].name == rets[i].name
                      && !r.value[i].conditional
                      && forall j :: 0 <= j < |rets| && j != i ==> r.value[j] == rets[j]
  {
    var iRet := AnnotatedReturn(rets);
    if iRet < 0 then Err(IllegalState)
    else if iRet >= |rets| then Err(OutOfBounds)
    else if rets[iRet].conditional || rets[iRet].index != iRet then Err(IllegalState)
    else
      var ret := rets[iRet];
      Ok(rets[iRet := Param(Wrap(a, ret.typ), ret.name, iRet, false, false)])
  }

  /** The outcome of `resolveAnnotations`: whether they are resolved, and the new annotations and rets. */
  datatype Resolution = Resolution(resolved: bool, annotations: Option<seq<Annotation>>, rets: seq<Param>)

  /**
   * `resolveAnnotations`: without rets there is nothing to do; an
   * unresolved annotation defers the whole step; otherwise what does not
   * apply into the method moves onto the return type.
   */
  function Resolve(annos: Option<seq<Annotation>>, rets: seq<Param>): (r: Result<Resolution>)
    ensures |rets| == 0 ==> r == Ok(Resolution(true, annos, rets))
    ensures |rets| > 0 && annos.None? ==> r == Err(NullPointer)
    ensures r.Ok? ==> |r.value.rets| == |rets| && (!r.value.resolved ==> r.value == Resolution(false, annos, rets))
    ensures r.Err? ==> r.fault in {NullPointer, OutOfBounds, IllegalState}
  {
    if |rets| == 0 then Ok(Resolution(true, annos, rets))
    else if annos.None? then Err(NullPointer)
    else
      var a := annos.value;
      if exists i :: 0 <= i < |a| && a[i].unresolved then Ok(Resolution(false, annos, rets))
      else
        var moved := MovedAnnotations(a);
        if |moved| == 0 then Ok(Resolution(true, annos, rets))
        else
          match ReturnsAnnotated(rets, moved)
          case Err(f) => Err(f)
          case Ok(rs) => Ok(Resolution(true, Some(if |moved| == |a| then [] else KeptAnnotations(a)), rs))
  }

  /**
   * What resolution promises: no rets or an unresolved annotation
   * changes nothing; otherwise the annotations that stay are those for the
   * method in their order, and the return value carries the others,
   * the first outermost.
   */
  lemma ResolveOutcome(a: seq<Annotation>, rets: seq<Param>)
    ensures var r := Resolve(Some(a), rets);
            && (|rets| == 0 ==> r == Ok(Resolution(true, Some(a), rets)))
            && ((exists i :: 0 <= i < |a| && a[i].unresolved) ==> r.Ok? && r.value == Resolution(|rets| == 0, Some(a), rets))
            && (r.Ok? && r.value.resolved && |rets| > 0 ==>
                  r.value.annotations == Some(KeptAnnotations(a)) &&
                  (MovedAnnotations(a) != [] ==> ReturnsAnnotated(rets, MovedAnnotations(a)) == Ok(r.value.rets)))
  {
    if |rets| > 0 && !(exists i :: 0 <= i < |a| && a[i].unresolved) {
      ResolveMoves(a, rets);
    }
  }

  /** With rets and every annotation resolved, the kept annotations stay and the moved ones go onto the return value. */
  lemma {:induction false} ResolveMoves(a: seq<Annotation>, rets: seq<Param>)
    requires |rets| > 0 && forall i :: 0 <= i < |a| ==> !a[i].unresolved
    ensures var r := Resolve(Some(a), rets);
            r.Ok? ==> r.value.annotations == Some(KeptAnnotations(a)) &&
                      (MovedAnnotations(a) != [] ==> ReturnsAnnotated(rets, MovedAnnotations(a)) == Ok(r.value.rets))
  {
    var moved := MovedAnnotations(a);
    if |moved| == 0 {
      KeptAllWhenNoneMoved(a);
    } else if |moved| == |a| {
      AnnotationsPartitioned(a);
      assert KeptAnnotations(a) == [];
    }
  }

  /** When nothing moves, every annotation stays. */
  lemma {:induction false} KeptAllWhenNoneMoved(a: seq<Annotation>)
    requires MovedAnnotations(a) == []
    ensures KeptAnnotations(a) == a
  {
    if a != [] {
      assert a[0] !in MovedAnnotations(a);
      KeptAllWhenNoneMoved(a[1..]);
      assert a == [a[0]] + a[1..];
    }
  }

  /** When nothing stays, every annotation moves. */
  lemma {:induction false} MovedAllWhenNoneKept(a: seq<Annotation>)
    requires |MovedAnnotations(a)| == |a|
    ensures MovedAnnotations(a) == a
  {
    if a != [] {
      AnnotationsPartitioned(a[1..]);
      assert !a[0].intoMethod;
      MovedAllWhenNoneKept(a[1..]);
      assert a == [a[0]] + a[1..];
    }
  }

  /** A single Void return means no return value at all. */
  function WithoutVoidReturn(rets: seq<Param>): (r: seq<Param>)
    ensures r == [] <==> rets == [] || (|rets| == 1 && rets[0].typ.Void?)
    ensures r != [] ==> r == rets
  {
    if |rets| == 1 && rets[0].typ.Void? then [] else rets
  }

  /** Dropping the Void return twice is dropping it once. */
  lemma WithoutVoidIdempotent(rets: seq<Param>)
    ensures WithoutVoidReturn(WithoutVoidReturn(rets)) == WithoutVoidReturn(rets)
  {
  }

  /** A signature's parameter and return types. */
  datatype Sig = Sig(name: string, params: seq<TypeC>, rets: seq<TypeC>)

  /**
   * Substitutability of a method with signature `mine` for one with
   * signature `that`: the same counts, each of its rets assignable to
   * the other's, and each of the other's parameters assignable to its own.
   */
  predicate Substitutable(mine: Sig, that: Sig, isA: (TypeC, TypeC) -> bool) {
    && |mine.params| == |that.params|
    && |mine.rets| == |that.rets|
    && (forall i :: 0 <= i < |mine.rets| ==> isA(mine.rets[i], that.rets[i]))
    && (forall i :: 0 <= i < |mine.params| ==> isA(that.params[i], mine.params[i]))
  }

  /** Every signature can stand in for itself when the type relation is reflexive. */
  lemma SubstitutableReflexive(m: Sig, isA: (TypeC, TypeC) -> bool)
    requires forall t :: isA(t, t)
    ensures Substitutable(m, m, isA)
  {
  }

  /** Substitution composes when the type relation is transitive. */
  lemma SubstitutableTransitive(a: Sig, b: Sig, c: Sig, isA: (TypeC, TypeC) -> bool)
    requires forall x, y, z :: isA(x, y) && isA(y, z) ==> isA(x, z)
    requires Substitutable(a, b, isA) && Substitutable(b, c, isA)
    ensures Substitutable(a, c, isA)
  {
    forall i | 0 <= i < |a.rets|
      ensures isA(a.rets[i], c.rets[i])
    {
      assert isA(a.rets[i], b.rets[i]) && isA(b.rets[i], c.rets[i]);
    }
    forall i | 0 <= i < |a.params|
      ensures isA(c.params[i], a.params[i])
    {
      assert isA(c.params[i], b.params[i]) && isA(b.params[i], a.params[i]);
    }
  }

  function Types(ps: seq<Param>): (r: seq<TypeC>)
    ensures |r| == |ps| && forall i :: 0 <= i < |ps| ==> r[i] == ps[i].typ
  {
    seq(|ps|, i requires 0 <= i < |ps| => ps[i].typ)
  }

  // ----- the method -----

  class MethodStructure {
    const name: string
    const access: Access
    const isStatic: bool
    var conditionalReturn: bool
    var annotations: Option<seq<Annotation>>
    var rets: seq<Param>
    var params: seq<Param>
    var typeParams: nat
    var isAbstract: bool
    var isNative: bool
    var hasBytes: bool
    var code: Code?

    /** A method is conditional when its first return is; its type parameters are the leading run of its parameters. */
    constructor (name: string, access: Access, isStatic: bool, annotations: Option<seq<Annotation>>,
                 rets: seq<Param>, params: seq<Param>)
      ensures this.name == name && this.access == access && this.isStatic == isStatic
      ensures this.annotations == annotations && this.rets == rets && this.params == params
      ensures conditionalReturn <==> |rets| > 0 && rets[0].conditional
      ensures typeParams == LeadingTypeParams(params)
      ensures !isAbstract && !isNative && !hasBytes && code == null
    {
      this.name := name;
      this.access := access;
      this.isStatic := isStatic;
      this.annotations := annotations;
      this.rets := rets;
      this.params := params;
      conditionalReturn := |rets| > 0 && rets[0].conditional;
      isAbstract, isNative, hasBytes, code := false, false, false, null;
      var count := 0;
      while count < |params| && params[count].isTypeParam
        invariant 0 <= count <= |params|
        invariant forall i :: 0 <= i < count ==> params[i].isTypeParam
        invariant LeadingTypeParams(params) == count + LeadingTypeParams(params[count..])
      {
        assert params[count..][1..] == params[count + 1..];
        count := count + 1;
      }
      typeParams := count;
    }

    /** `findAnnotation`: the first annotation of the class; there must be an annotation array to search. */
    method FindAnnotation(cls: nat) returns (r: Result<Option<Annotation>>)
      ensures annotations.None? ==> r == Err(NullPointer)
      ensures annotations.Some? ==> r == Ok(FirstOfClass(annotations.value, cls))
    {
      if annotations.None? {
        return Err(NullPointer);
      }
      var a := annotations.value;
      for i := 0 to |a|
        invariant FirstOfClass(a, cls) == FirstOfClass(a[i..], cls)
      {
        assert a[i..][1..] == a[i + 1..];
        if a[i].cls == cls {
          return Ok(Some(a[i]));
        }
      }
      r := Ok(None);
    }

    /** A function is a static method. */
    function IsFunction(): bool
      reads this
    {
      isStatic
    }

    /** `isPotentialInitializer`: a function named "=" with one plain return and no parameters. */
    function IsPotentialInitializer(): (r: bool)
      reads this
      ensures r ==> isStatic && |rets| == 1 && |params| == 0
    {
      name == "=" && |rets| == 1 && |params| == 0 && IsFunction() && !conditionalReturn
    }

    /** `isPotentialGetter`: a public method (not a function) named "get" with one plain return and no parameters. */
    function IsPotentialGetter(): (r: bool)
      reads this
      ensures r ==> name != "set" && name != "=" && !isStatic
    {
      name == "get" && access == Public && |rets| == 1 && |params| == 0 && !IsFunction() && !conditionalReturn
    }

    /** `isPotentialSetter`: a public method (not a function) named "set" with no return and one parameter. */
    function IsPotentialSetter(): (r: bool)
      reads this
      ensures r ==> name != "=" && name != "get" && !isStatic
    {
      name == "set" && access == Public && |rets| == 0 && |params| == 1 && !IsFunction() && !conditionalReturn
    }

    /** `isAccessible`: the method's access is no more restrictive than the policy. */
    function IsAccessible(policy: Access): (r: bool)
      reads this
      ensures access == Public ==> r
      ensures policy == Struct ==> r
      ensures policy == Public ==> (r <==> access == Public)
    {
      Ordinal(access) <= Ordinal(policy)
    }

    /** The method's own signature. */
    function MySig(): Sig
      reads this
    {
      Sig(name, Types(params), Types(rets))
    }

    /** `isSubstitutableFor`: compare the counts, then each return type, then each parameter type. */
    method IsSubstitutableFor(that: Sig, isA: (TypeC, TypeC) -> bool) returns (r: Result<bool>)
      ensures r.Err? <==> that.name != name
      ensures r.Ok? ==> (r.value <==> Substitutable(MySig(), that, isA))
    {
      if name != that.name {
        return Err(IllegalState);
      }
      var mine := MySig();
      if |params| != |that.params| || |rets| != |that.rets| {
        return Ok(false);
      }
      for i := 0 to |rets|
        invariant forall k :: 0 <= k < i ==> isA(mine.rets[k], that.rets[k])
      {
        if !isA(mine.rets[i], that.rets[i]) {
          return Ok(false);
        }
      }
      for i := 0 to |params|
        invariant forall k :: 0 <= k < i ==> isA(that.params[k], mine.params[k])
      {
        if !isA(that.params[i], mine.params[i]) {
          return Ok(false);
        }
      }
      r := Ok(true);
    }

    /** Not abstract and native at once. */
    predicate AbstractOrNative()
      reads this
    {
      !(isAbstract && isNative)
    }

    /** `setAbstract`: marking the method abstract drops its code and bytes and its native flag. */
    method SetAbstract(f: bool)
      modifies this
      ensures isAbstract == f && conditionalReturn == old(conditionalReturn)
      ensures f ==> !isNative && !hasBytes && code == null
      ensures !f ==> isNative == old(isNative) && hasBytes == old(hasBytes) && code == old(code)
      ensures annotations == old(annotations) && rets == old(rets) && params == old(params) && typeParams == old(typeParams)
      ensures AbstractOrNative()
    {
      if f {
        hasBytes, code, isNative := false, null, false;
      }
      isAbstract := f;
    }

    /** `setNative`: marking the method native clears its abstract flag. */
    method SetNative(f: bool)
      modifies this
      ensures isNative == f && conditionalReturn == old(conditionalReturn)
      ensures f ==> !isAbstract
      ensures !f ==> isAbstract == old(isAbstract)
      ensures hasBytes == old(hasBytes) && code == old(code)
      ensures annotations == old(annotations) && rets == old(rets) && params == old(params) && typeParams == old(typeParams)
      ensures old(AbstractOrNative()) ==> AbstractOrNative()
    {
      if f {
        isAbstract := false;
      }
      isNative := f;
    }

    /** `ensureCode`: none for an abstract or native method; otherwise the existing code or new, empty code. */
    method EnsureCode() returns (c: Code?)
      modifies this`code
      ensures isAbstract == old(isAbstract) && isNative == old(isNative) && hasBytes == old(hasBytes)
      ensures (old(isNative) || old(isAbstract)) ==> c == null && code == old(code)
      ensures !(old(isNative) || old(isAbstract)) ==> c != null && code == c
      ensures !(old(isNative) || old(isAbstract)) && old(code) != null ==> c == old(code)
      ensures !(old(isNative) || old(isAbstract)) && old(code) == null ==> fresh(c) && c.owner == this && c.ops.None?
    {
      if isNative || isAbstract {
        return null;
      }
      c := code;
      if c == null {
        c := new Code(this);
        code := c;
      }
    }

    /**
     * `resolveAnnotations`, in place: count the annotations to move (an
     * unresolved one ends the step at once), then split them.
     */
    method ResolveAnnotations() returns (r: Result<bool>)
      modifies this`annotations, this`rets
      ensures match Resolve(old(annotations), old(rets))
              case Err(f) => r == Err(f) && annotations == old(annotations) && rets == old(rets)
              case Ok(res) => r == Ok(res.resolved) && annotations == res.annotations && rets == res.rets
    {
      if |rets| == 0 {
        return Ok(true);
      }
      if annotations.None? {
        return Err(NullPointer);
      }
      var a := annotations.value;
      var count := CountMoved(a);
      if count.None? {
        return Ok(false);
      }
      var cMove := count.value;
      if cMove == 0 {
        return Ok(true);
      }
      if cMove == |a| {
        MovedAllWhenNoneKept(a);
        var rs := AddReturnAnnotations(a);
        if rs.Err? {
          return Err(rs.fault);
        }
        annotations := Some([]);
        return Ok(true);
      }
      var keep, move := SplitAnnotations(a);
      var rs := AddReturnAnnotations(move);
      if rs.Err? {
        return Err(rs.fault);
      }
      annotations := Some(keep);
      r := Ok(true);
    }

    /** `addReturnAnnotations`: wrap the chosen return's type from the last annotation to the first. */
    method AddReturnAnnotations(a: seq<Annotation>) returns (r: Result<()>)
      modifies this`rets
      ensures match ReturnsAnnotated(old(rets), a)
              case Err(f) => r == Err(f) && rets == old(rets)
              case Ok(rs) => r == Ok(()) && rets == rs
    {
      if |rets| == 0 {
        return Err(IllegalState);
      }
      var iRet := 0;
      if rets[iRet].conditional {
        iRet := iRet + 1;
        if iRet >= |rets| {
          return Err(OutOfBounds);
        }
      }
      var ret := rets[iRet];
      if ret.conditional || ret.index != iRet {
        return Err(IllegalState);
      }
      var t := ret.typ;
      var i := |a|;
      while i > 0
        invariant 0 <= i <= |a|
        invariant t == Wrap(a[i..], ret.typ)
      {
        i := i - 1;
        assert a[i..][1..] == a[i + 1..];
        t := Annotated(a[i], t);
      }
      rets := rets[iRet := Param(t, ret.name, iRet, false, false)];
      r := Ok(());
    }
  }

  /** The first loop of `resolveAnnotations`: nothing when an annotation is unresolved, else how many move. */
  method CountMoved(a: seq<Annotation>) returns (r: Option<nat>)
    ensures r.None? <==> exists i :: 0 <= i < |a| && a[i].unresolved
    ensures r.Some? ==> r.value == |MovedAnnotations(a)|
  {
    var cMove := 0;
    for i := 0 to |a|
      invariant forall k :: 0 <= k < i ==> !a[k].unresolved
      invariant cMove == |MovedAnnotations(a[..i])|
    {
      if a[i].unresolved {
        return None;
      }
      MovedAppend(a[..i], a[i]);
      assert a[..i + 1] == a[..i] + [a[i]];
      if !a[i].intoMethod {
        cMove := cMove + 1;
      }
    }
    assert a[..|a|] == a;
    r := Some(cMove);
  }

  /** The second loop of `resolveAnnotations`: the annotations that stay and those that move, each in order. */
  method SplitAnnotations(a: seq<Annotation>) returns (keep: seq<Annotation>, move: seq<Annotation>)
    ensures keep == KeptAnnotations(a) && move == MovedAnnotations(a)
  {
    keep, move := [], [];
    for i := 0 to |a|
      invariant keep == KeptAnnotations(a[..i]) && move == MovedAnnotations(a[..i])
    {
      KeptAppend(a[..i], a[i]);
      MovedAppend(a[..i], a[i]);
      assert a[..i + 1] == a[..i] + [a[i]];
      if a[i].intoMethod {
        keep := keep + [a[i]];
      } else {
        move := move + [a[i]];
      }
    }
    assert a[..|a|] == a;
  }

  lemma {:induction false} KeptAppend(a: seq<Annotation>, x: Annotation)
    ensures KeptAnnotations(a + [x]) == KeptAnnotations(a) + (if x.intoMethod then [x] else [])
  {
    if a == [] {
      assert [x][1..] == [];
    } else {
      assert (a + [x])[0] == a[0] && (a + [x])[1..] == a[1..] + [x];
      KeptAppend(a[1..], x);
    }
  }

  lemma {:induction false} MovedAppend(a: seq<Annotation>, x: Annotation)
    ensures MovedAnnotations(a + [x]) == MovedAnnotations(a) + (if x.intoMethod then [] else [x])
  {
    if a == [] {
      assert [x][1..] == [];
    } else {
      assert (a + [x])[0] == a[0] && (a + [x])[1..] == a[1..] + [x];
      MovedAppend(a[1..], x);
    }
  }

  /** No method can play two of the property roles. */
  lemma RolesExclusive(m: MethodStructure)
    ensures !(m.IsPotentialGetter() && m.IsPotentialSetter())
    ensures !(m.IsPotentialGetter() && m.IsPotentialInitializer())
    ensures !(m.IsPotentialSetter() && m.IsPotentialInitializer())
  {
  }

  /** Access is monotone in the policy: public methods are always accessible, and a struct policy admits all. */
  lemma AccessMonotone(m: MethodStructure, p: Access, q: Access)
    ensures m.IsAccessible(p) && Ordinal(p) <= Ordinal(q) ==> m.IsAccessible(q)
    ensures m.access == Public ==> m.IsAccessible(p)
    ensures m.IsAccessible(Struct)
    ensures m.IsAccessible(Public) <==> m.access == Public
  {
  }

  // ----- the code of a method -----

  /** The kind of an op, as far as building code is concerned: a line-number Nop, a prefix, or any other op. */
  datatype OpKind = NopOp(delta: int) | PrefixOp | OtherOp

  /** An op; ops are told apart by identity, as in an identity map. */
  class Op {
    const kind: OpKind

    constructor (kind: OpKind)
      ensures this.kind == kind
    {
      this.kind := kind;
    }
  }

  /**
   * The building state of the code: the list of entries, each a prefix
   * chain (prefixes followed by the op they prefix), whether the last
   * entry ends in a prefix still waiting for its op, the line numbers, and
   * the cached map from op to address.
   */
  datatype CodeState = CodeState(ops: Option<seq<seq<Op>>>, trailing: bool, prevLine: int, curLine: int,
                                 index: Option<map<Op, int>>)

  /** The threshold below which addresses are found by a linear search. */
  const LinearSearchLimit := 50

  predicate EndsInPrefix(c: seq<Op>) {
    |c| > 0 && c[|c| - 1].kind.PrefixOp?
  }

  /** A prefix chain: some ops, all but the last of them prefixes. */
  predicate ChainOk(c: seq<Op>) {
    |c| > 0 && forall j :: 0 <= j < |c| - 1 ==> c[j].kind.PrefixOp?
  }

  /** The entries are chains, and the trailing flag says exactly whether the last one ends in a prefix. */
  predicate Shaped(s: CodeState) {
    match s.ops
    case None => !s.trailing
    case Some(l) =>
      && (forall i :: 0 <= i < |l| ==> ChainOk(l[i]))
      && (s.trailing <==> |l| > 0 && EndsInPrefix(l[|l| - 1]))
  }

  /** No op belongs to two entries. */
  predicate ChainsDisjoint(l: seq<seq<Op>>) {
    forall i, j, o :: 0 <= i < j < |l| && o in l[i] ==> o !in l[j]
  }

  /** All ops in order. */
  function Flatten(l: seq<seq<Op>>): seq<Op> {
    if l == [] then [] else Flatten(l[..|l| - 1]) + l[|l| - 1]
  }

  /** An op is among all ops exactly when some entry holds it. */
  lemma {:induction false} FlattenMember(l: seq<seq<Op>>, o: Op)
    ensures o in Flatten(l) <==> exists i :: 0 <= i < |l| && o in l[i]
  {
    if l != [] {
      var p := l[..|l| - 1];
      FlattenMember(p, o);
      if o in Flatten(p) {
        var i :| 0 <= i < |p| && o in p[i];
        assert o in l[i];
      }
      if exists i :: 0 <= i < |l| && o in l[i] {
        var i :| 0 <= i < |l| && o in l[i];
        if i < |p| {
          assert o in p[i];
        }
      }
    }
  }

  lemma FlattenSnoc(l: seq<seq<Op>>, c: seq<Op>)
    ensures Flatten(l + [c]) == Flatten(l) + c
  {
    assert (l + [c])[..|l|] == l;
  }

  /** `ensureAppending`: code read from bytes cannot be appended to; otherwise the list of ops exists afterwards. */
  function Ensured(s: CodeState, appendable: bool): (r: (Result<()>, CodeState))
    ensures r.0.Err? <==> !appendable
    ensures r.0.Ok? ==> r.1.ops.Some? && (s.ops.Some? ==> r.1 == s)
    ensures r.0.Ok? && s.ops.None? ==> r.1 == s.(ops := Some([]))
    ensures r.0.Err? ==> r.1 == s
  {
    if !appendable then (Err(IllegalState), s)
    else (Ok(()), if s.ops.None? then s.(ops := Some([])) else s)
  }

  /** One op joins the chain of a trailing prefix, or becomes an entry of its own. */
  function Appended(s: CodeState, op: Op): (Result<()>, CodeState)
    requires s.ops.Some?
  {
    var l := s.ops.value;
    if s.trailing && |l| == 0 then (Err(OutOfBounds), s)
    else
      var l' := if s.trailing then l[..|l| - 1] + [l[|l| - 1] + [op]] else l + [[op]];
      (Ok(()), s.(ops := Some(l'), trailing := op.kind.PrefixOp?, index := None))
  }

  /**
   * `add`: after `ensureAppending`, a change of line number first adds a
   * Nop `nop` carrying the difference, then the op is appended.
   */
  function Added(s: CodeState, appendable: bool, op: Op, nop: Op): (Result<()>, CodeState) {
    var (e, s1) := Ensured(s, appendable);
    if e.Err? then (e, s1)
    else if s1.curLine - s1.prevLine != 0 then
      var (r, s2) := Appended(s1.(prevLine := s1.curLine), nop);
      if r.Err? then (r, s2) else Appended(s2, op)
    else Appended(s1, op)
  }

  lemma AppendedShape(s: CodeState, op: Op)
    requires Shaped(s) && s.ops.Some?
    ensures Appended(s, op).0.Ok? && Shaped(Appended(s, op).1)
    ensures Flatten(Appended(s, op).1.ops.value) == Flatten(s.ops.value) + [op]
  {
    var l := s.ops.value;
    if s.trailing {
      var n := |l|;
      var init := l[..n - 1];
      assert l == init + [l[n - 1]];
      FlattenSnoc(init, l[n - 1]);
      FlattenSnoc(init, l[n - 1] + [op]);
    } else {
      FlattenSnoc(l, [op]);
    }
  }

  /**
   * What adding promises: apart from code read from bytes, it never fails
   * on well-shaped code, the shape is kept, the ops gain the Nop (when the
   * line changed) and then the op, the line is caught up, the trailing flag
   * tells whether the op is a prefix, and the cached index is dropped.
   */
  lemma AddedOutcome(s: CodeState, appendable: bool, op: Op, nop: Op)
    requires Shaped(s)
    ensures var (r, t) := Added(s, appendable, op, nop);
            && (r.Err? <==> !appendable)
            && (r.Err? ==> t == s)
            && (r.Ok? ==>
                  && Shaped(t)
                  && t.ops.Some?
                  && Flatten(t.ops.value) == (if s.ops.Some? then Flatten(s.ops.value) else [])
                                             + (if s.curLine != s.prevLine then [nop, op] else [op])
                  && t.prevLine == t.curLine == s.curLine
                  && t.trailing == op.kind.PrefixOp?
                  && t.index.None?)
  {
    if appendable {
      AddedShape(s, op, nop);
      AddedFields(s, op, nop);
    }
  }

  /** Added code keeps its shape and gains the Nop (when the line changed) and then the op. */
  lemma AddedShape(s: CodeState, op: Op, nop: Op)
    requires Shaped(s)
    ensures var (r, t) := Added(s, true, op, nop);
            && r.Ok? && Shaped(t) && t.ops.Some?
            && Flatten(t.ops.value) == (if s.ops.Some? then Flatten(s.ops.value) else [])
                                       + (if s.curLine != s.prevLine then [nop, op] else [op])
  {
    var s1 := Ensured(s, true).1;
    var base := if s.ops.Some? then Flatten(s.ops.value) else [];
    assert Flatten(s1.ops.value) == base;
    if s.curLine != s.prevLine {
      AddedOnNewLine(s1, op, nop);
    } else {
      AppendedShape(s1, op);
    }
  }

  /** On a new line, the Nop and then the op are appended. */
  lemma AddedOnNewLine(s1: CodeState, op: Op, nop: Op)
    requires Shaped(s1) && s1.ops.Some? && s1.curLine != s1.prevLine
    ensures var (r, t) := Added(s1, true, op, nop);
            r.Ok? && Shaped(t) && t.ops.Some? && Flatten(t.ops.value) == Flatten(s1.ops.value) + [nop, op]
  {
    var s1' := s1.(prevLine := s1.curLine);
    AppendedShape(s1', nop);
    var s2 := Appended(s1', nop).1;
    AppendedShape(s2, op);
    assert (Flatten(s1.ops.value) + [nop]) + [op] == Flatten(s1.ops.value) + [nop, op];
  }

  /** Added code has its line caught up, its trailing flag set by the op's kind, and no cached index. */
  lemma AddedFields(s: CodeState, op: Op, nop: Op)
    requires Shaped(s)
    ensures var t := Added(s, true, op, nop).1;
            t.prevLine == t.curLine == s.curLine && t.trailing == op.kind.PrefixOp? && t.index.None?
  {
    var s1 := Ensured(s, true).1;
    if s1.curLine - s1.prevLine != 0 {
      var s1' := s1.(prevLine := s1.curLine);
      AppendedShape(s1', nop);
    }
  }

  /** An op added after a trailing prefix on the same line joins that prefix's entry. */
  lemma AddedJoinsPrefix(s: CodeState, op: Op, nop: Op)
    requires Shaped(s) && s.trailing && s.curLine == s.prevLine
    ensures var (r, t) := Added(s, true, op, nop);
            && r.Ok? && |t.ops.value| == |s.ops.value|
            && t.ops.value[..|s.ops.value| - 1] == s.ops.value[..|s.ops.value| - 1]
            && t.ops.value[|s.ops.value| - 1] == s.ops.value[|s.ops.value| - 1] + [op]
  {
  }

  /**
   * When the line changes after a trailing prefix, the Nop joins the
   * prefix's entry and the op starts an entry of its own.
   */
  lemma AddedAfterPrefixOnNewLine(s: CodeState, op: Op, nop: Op)
    requires Shaped(s) && s.trailing && s.curLine != s.prevLine && nop.kind == NopOp(s.curLine - s.prevLine)
    ensures var (r, t) := Added(s, true, op, nop);
            && r.Ok? && |t.ops.value| == |s.ops.value| + 1
            && t.ops.value[|s.ops.value| - 1] == s.ops.value[|s.ops.value| - 1] + [nop]
            && t.ops.value[|s.ops.value|] == [op]
  {
  }

  /** Adding ops that are not in the code yet keeps every op in a single entry. */
  lemma AddedKeepsDisjoint(s: CodeState, op: Op, nop: Op)
    requires Shaped(s) && s.ops.Some? && ChainsDisjoint(s.ops.value)
    requires op !in Flatten(s.ops.value) && nop !in Flatten(s.ops.value) && nop != op
    ensures var t := Added(s, true, op, nop).1;
            t.ops.Some? && ChainsDisjoint(t.ops.value)
  {
    if s.curLine != s.prevLine {
      var s1 := s.(prevLine := s.curLine);
      AppendedDisjoint(s1, nop);
      AppendedShape(s1, nop);
      AppendedDisjoint(Appended(s1, nop).1, op);
    } else {
      AppendedDisjoint(s, op);
    }
  }

  lemma AppendedDisjoint(s: CodeState, op: Op)
    requires Shaped(s) && s.ops.Some? && ChainsDisjoint(s.ops.value) && op !in Flatten(s.ops.value)
    ensures ChainsDisjoint(Appended(s, op).1.ops.value)
  {
    var l := s.ops.value;
    var l' := Appended(s, op).1.ops.value;
    FlattenMember(l, op);
    forall i, j, o | 0 <= i < j < |l'| && o in l'[i]
      ensures o !in l'[j]
    {
      assert l'[i] == l[i];
      assert o != op;
      if s.trailing {
        assert l'[j] == if j == |l| - 1 then l[j] + [op] else l[j];
      } else {
        assert l'[j] == if j == |l| then [op] else l[j];
      }
    }
  }

  // ----- finding an op's address -----

  /** The first entry from `i` on whose chain holds `o`, or -1. */
  function FirstFrom(l: seq<seq<Op>>, o: Op, i: nat): (r: int)
    requires i <= |l|
    ensures r == -1 || i <= r < |l|
    ensures r >= 0 ==> o in l[r] && forall k :: i <= k < r ==> o !in l[k]
    ensures r == -1 ==> forall k :: i <= k < |l| ==> o !in l[k]
    decreases |l| - i
  {
    if i == |l| then -1 else if o in l[i] then i else FirstFrom(l, o, i + 1)
  }

  /** The address of `o` by a linear search: the first entry whose chain holds it, or -1. */
  function FirstIndex(l: seq<seq<Op>>, o: Op): (r: int)
    ensures r == -1 || 0 <= r < |l|
    ensures r >= 0 ==> o in l[r] && forall k :: 0 <= k < r ==> o !in l[k]
    ensures r == -1 ==> forall k :: 0 <= k < |l| ==> o !in l[k]
  {
    FirstFrom(l, o, 0)
  }

  /** Every op of a chain is mapped to the chain's address. */
  function PutChain(m: map<Op, int>, c: seq<Op>, i: int): map<Op, int> {
    if c == [] then m else PutChain(m, c[..|c| - 1], i)[c[|c| - 1] := i]
  }

  lemma {:induction false} PutChainAt(m: map<Op, int>, c: seq<Op>, i: int, o: Op)
    ensures o in PutChain(m, c, i) <==> o in m || o in c
    ensures o in PutChain(m, c, i) ==> PutChain(m, c, i)[o] == if o in c then i else m[o]
  {
    if c != [] {
      var p := c[..|c| - 1];
      PutChainAt(m, p, i, o);
      assert c == p + [c[|c| - 1]];
    }
  }

  /** The index built over all entries, later entries overriding earlier ones. */
  function BuildIndex(l: seq<seq<Op>>): map<Op, int> {
    if l == [] then map[] else PutChain(BuildIndex(l[..|l| - 1]), l[|l| - 1], |l| - 1)
  }

  /** With every op in one entry, the index maps exactly the ops present, each to the entry a linear search finds. */
  lemma {:induction false} BuildIndexAgrees(l: seq<seq<Op>>, o: Op)
    requires ChainsDisjoint(l)
    ensures o in BuildIndex(l) <==> FirstIndex(l, o) >= 0
    ensures o in BuildIndex(l) ==> BuildIndex(l)[o] == FirstIndex(l, o)
  {
    if l != [] {
      var n := |l| - 1;
      var p := l[..n];
      assert ChainsDisjoint(p) by {
        forall i, j, x | 0 <= i < j < |p| && x in p[i]
          ensures x !in p[j]
        {
          assert p[i] == l[i] && p[j] == l[j];
        }
      }
      BuildIndexAgrees(p, o);
      PutChainAt(BuildIndex(p), l[n], n, o);
      var f := FirstIndex(l, o);
      if o in l[n] {
        forall k | 0 <= k < n
          ensures o !in l[k]
        {
        }
        assert f == n;
      } else {
        forall k | 0 <= k < n
          ensures o in l[k] <==> o in p[k]
        {
        }
        var g := FirstIndex(p, o);
        if g >= 0 {
          assert o in l[g];
          assert f == g;
        } else {
          assert f == -1;
        }
      }
    }
  }

  /** The index is either absent or the one built from the current entries. */
  predicate Coherent(s: CodeState) {
    s.index.Some? ==> s.ops.Some? && s.index.value == BuildIndex(s.ops.value)
  }

  function Lookup(m: map<Op, int>, o: Op): int {
    if o in m then m[o] else -1
  }

  /**
   * `addressOf`: from the cached index when there is one; otherwise a
   * linear search over a short list, or else a new index that is kept.
   */
  function Address(s: CodeState, o: Op): (Result<int>, CodeState) {
    match s.index
    case Some(m) => (Ok(Lookup(m, o)), s)
    case None =>
      if s.ops.None? then (Err(NullPointer), s)
      else if |s.ops.value| < LinearSearchLimit then (Ok(FirstIndex(s.ops.value, o)), s)
      else
        var m := BuildIndex(s.ops.value);
        (Ok(Lookup(m, o)), s.(index := Some(m)))
  }

  /**
   * Both ways of finding an address agree: on coherent code built of
   * distinct ops, the address is the entry holding the op, or -1 when no
   * entry does, and the cache stays coherent.
   */
  lemma AddressAgrees(s: CodeState, o: Op)
    requires s.ops.Some? && Coherent(s) && ChainsDisjoint(s.ops.value)
    ensures var (r, t) := Address(s, o);
            && r == Ok(FirstIndex(s.ops.value, o))
            && Coherent(t) && t.ops == s.ops
            && (r.value == -1 <==> o !in Flatten(s.ops.value))
  {
    BuildIndexAgrees(s.ops.value, o);
    FlattenMember(s.ops.value, o);
  }

  /** The code of a method, built by appending ops. */
  class Code {
    const owner: MethodStructure?
    var ops: Option<seq<seq<Op>>>
    var trailing: bool
    var prevLine: int
    var curLine: int
    var index: Option<map<Op, int>>

    function St(): CodeState
      reads this
    {
      CodeState(ops, trailing, prevLine, curLine, index)
    }

    /** Code can be appended to unless its method was read from bytes. */
    predicate Appendable()
      reads this, owner
    {
      owner == null || !owner.hasBytes
    }

    /** New code for a method holds no ops and is on line zero. */
    constructor (owner: MethodStructure?)
      ensures this.owner == owner && St() == CodeState(None, false, 0, 0, None)
      ensures Shaped(St()) && Coherent(St())
    {
      this.owner := owner;
      ops, trailing, prevLine, curLine, index := None, false, 0, 0, None;
    }

    /** `updateLineNumber`: only the current line changes. */
    method UpdateLineNumber(n: int)
      modifies this`curLine
      ensures St() == old(St()).(curLine := n)
    {
      curLine := n;
    }

    method EnsureAppending() returns (r: Result<()>)
      modifies this`ops
      ensures (r, St()) == Ensured(old(St()), old(Appendable()))
    {
      if owner != null && owner.hasBytes {
        return Err(IllegalState);
      }
      if ops.None? {
        ops := Some([]);
      }
      r := Ok(());
    }

    method AppendOp(op: Op) returns (r: Result<()>)
      requires ops.Some?
      modifies this`ops, this`trailing, this`index
      ensures (r, St()) == Appended(old(St()), op)
    {
      var l := ops.value;
      if trailing {
        if |l| == 0 {
          return Err(OutOfBounds);
        }
        ops := Some(l[..|l| - 1] + [l[|l| - 1] + [op]]);
      } else {
        ops := Some(l + [[op]]);
      }
      trailing := op.kind.PrefixOp?;
      index := None;
      r := Ok(());
    }

    /** `add`, with the Nop it may create for a change of line. */
    method Add(op: Op) returns (r: Result<()>, ghost nop: Op)
      modifies this
      ensures (r, St()) == Added(old(St()), old(Appendable()), op, nop)
      ensures old(curLine) != old(prevLine) && r.Ok? ==> fresh(nop) && nop.kind == NopOp(old(curLine - prevLine))
    {
      nop := op;
      r := EnsureAppending();
      if r.Err? {
        return;
      }
      var delta := curLine - prevLine;
      if delta != 0 {
        prevLine := curLine;
        var n := new Op(NopOp(delta));
        nop := n;
        r := AppendOp(n);
        if r.Err? {
          return;
        }
      }
      r := AppendOp(op);
    }

    /** `addressOf`, with its linear search and its index construction. */
    method AddressOf(o: Op) returns (r: Result<int>)
      modifies this`index
      ensures (r, St()) == Address(old(St()), o)
    {
      if index.Some? {
        return Ok(Lookup(index.value, o));
      }
      if ops.None? {
        return Err(NullPointer);
      }
      var l := ops.value;
      if |l| < LinearSearchLimit {
        for i := 0 to |l|
          invariant forall k :: 0 <= k < i ==> o !in l[k]
        {
          if o in l[i] {
            return Ok(i);
          }
        }
        return Ok(-1);
      }
      var m := BuildEntries(l);
      index := Some(m);
      r := Ok(Lookup(m, o));
    }
  }

  /** The index loop of `addressOf`: every op of every chain is put with the chain's address. */
  method BuildEntries(l: seq<seq<Op>>) returns (m: map<Op, int>)
    ensures m == BuildIndex(l)
  {
    m := map[];
    for i := 0 to |l|
      invariant m == BuildIndex(l[..i])
    {
      assert l[..i + 1][..i] == l[..i];
      var c := l[i];
      var base := m;
      for j := 0 to |c|
        invariant m == PutChain(base, c[..j], i)
      {
        assert c[..j + 1][..j] == c[..j];
        m := m[c[j] := i];
      }
      assert c[..|c|] == c;
    }
    assert l[..|l|] == l;
  }
}
