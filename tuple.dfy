/**
 * The `Tuple` template: a tuple handle holds an array of values (which may
 * be missing), their element types and a mutability flag; the template
 * reads and writes elements by index, names the type parameters of a tuple
 * class `ElementTypes[0]`, `ElementTypes[1]`, … and renders a tuple as text.
 */
module Tuples {
  import opened Base
  import opened Protocol

  /** A resolved type, by identity. */
  type TypeId = nat

  /** A type composition (a class with its actual type parameters), by identity. */
  type Clazz = nat

  /** What an indexed read gives: the value, an out-of-range exception, or a host fault. */
  datatype Access<T> = Done(value: T) | OutOfRange(index: int, size: nat) | Threw(fault: Fault)

  /** What `assignArrayValue` answers: no exception, or the exception to raise. */
  datatype Assigned = Assigned | RangeError(index: int, size: nat) | ImmutableObject

  /** `TupleHandle`. */
  class TupleHandle {
    const clazz: Clazz
    var values: array?<Handle>
    var types: Option<seq<TypeId>>
    var mutable: bool

    /** A new tuple handle is mutable; nothing sets its element types. */
    constructor (clazz: Clazz, values: array?<Handle>)
      ensures this.clazz == clazz && this.values == values && types.None? && mutable
    {
      this.clazz := clazz;
      this.values := values;
      types := None;
      mutable := true;
    }

    /** The element count the index checks use: a missing array has none. */
    function Count(): nat
      reads this
    {
      if values == null then 0 else values.Length
    }

    /** `extractArrayValue`: the element at an index within the count, or out of range. */
    function Extract(index: int): (r: Access<Handle>)
      reads this, values
      ensures r.Done? <==> 0 <= index < Count()
      ensures r.Done? ==> values != null && r.value == values[index]
      ensures !r.Done? ==> r == OutOfRange(index, Count())
    {
      if index < 0 || index >= Count() then OutOfRange(index, Count()) else Done(values[index])
    }

    /**
     * `assignArrayValue`: the range is checked first, then mutability; on
     * success only the slot at the index changes, and reading it back gives
     * the new value.
     */
    method Assign(index: int, h: Handle) returns (r: Assigned)
      modifies values
      ensures !(0 <= index < Count()) ==> r == RangeError(index, Count())
      ensures 0 <= index < Count() && !mutable ==> r == ImmutableObject
      ensures r == Assigned <==> 0 <= index < Count() && mutable
      ensures values != null && r != Assigned ==> values[..] == old(values[..])
      ensures r == Assigned ==> values[..] == old(values[..])[index := h] && Extract(index) == Done(h)
    {
      if index < 0 || index >= Count() {
        return RangeError(index, Count());
      }
      if !mutable {
        return ImmutableObject;
      }
      values[index] := h;
      return Assigned;
    }

    /**
     * `getElementType`: the same range check as `Extract`, then the element
     * type, which is a null dereference while no types are set.
     */
    function ElementType(index: int): (r: Access<TypeId>)
      reads this
      ensures r.OutOfRange? <==> !(0 <= index < Count())
      ensures r.OutOfRange? ==> r == OutOfRange(index, Count())
      ensures r.Threw? <==> 0 <= index < Count() && (types.None? || index >= |types.value|)
      ensures r.Threw? ==> r.fault == (if types.None? then NullPointer else OutOfBounds)
      ensures r.Done? ==> r.value == types.value[index]
    {
      if index < 0 || index >= Count() then OutOfRange(index, Count())
      else if types.None? then Threw(NullPointer)
      else if index >= |types.value| then Threw(OutOfBounds)
      else Done(types.value[index])
    }

    /**
     * `size`: the number of values; unlike the index checks it dereferences
     * the array, so a missing one is a null dereference.  The indices it
     * gives are exactly those `Extract` accepts.
     */
    function Size(): (r: Access<nat>)
      reads this
      ensures r.Threw? <==> values == null
      ensures r.Threw? ==> r.fault == NullPointer && Count() == 0
      ensures r.Done? ==> forall i :: Extract(i).Done? <==> 0 <= i < r.value
      ensures !r.OutOfRange?
    {
      if values == null then Threw(NullPointer) else Done(values.Length)
    }

    /** `makeImmutable`. */
    method MakeImmutable()
      modifies this`mutable
      ensures !mutable
    {
      mutable := false;
    }
  }

  // ----- the type-parameter names of a tuple class -----

  /**
   * The name of the `i`-th type parameter of a tuple class, the string
   * `"ElementTypes[" + i + ']'`, kept as its index.
   */
  datatype ParamName = ElementTypes(index: nat)

  /** The type-parameter map of a tuple class with element types `types`. */
  function ParamsOf(types: seq<TypeId>): map<ParamName, TypeId> {
    if |types| == 0 then map[]
    else ParamsOf(types[..|types| - 1])[ElementTypes(|types| - 1) := types[|types| - 1]]
  }

  /**
   * The map names each element type by its index: its keys are exactly the
   * names of the indices below the count, and each maps to its type.
   */
  lemma {:induction false} ParamsOfNamesElements(types: seq<TypeId>)
    ensures forall i :: 0 <= i < |types| ==> ElementTypes(i) in ParamsOf(types) && ParamsOf(types)[ElementTypes(i)] == types[i]
    ensures forall k :: k in ParamsOf(types) ==> k.index < |types|
  {
    if |types| > 0 {
      var n := |types| - 1;
      var init := types[..n];
      ParamsOfNamesElements(init);
      forall i | 0 <= i < n
        ensures init[i] == types[i]
      {
      }
    }
  }

  /** The loop of `makeHandle` and `resolveClass` that fills the type-parameter map. */
  method MakeParams(types: seq<TypeId>) returns (m: map<ParamName, TypeId>)
    ensures m == ParamsOf(types)
  {
    m := map[];
    var i := 0;
    while i < |types|
      invariant 0 <= i <= |types|
      invariant m == ParamsOf(types[..i])
    {
      assert types[..i + 1][..i] == types[..i];
      m := m[ElementTypes(i) := types[i]];
      i := i + 1;
    }
    assert types[..i] == types;
  }

  /**
   * `makeHandle(aType, ahValue)`: a new mutable handle of the class with
   * the named element types (no types: the empty map).
   */
  method MakeHandle(types: seq<TypeId>, vals: array?<Handle>, ensureClass: map<ParamName, TypeId> -> Clazz)
    returns (t: TupleHandle)
    ensures fresh(t) && t.values == vals && t.mutable && t.types.None?
    ensures t.clazz == ensureClass(ParamsOf(types))
    ensures |types| == 0 ==> t.clazz == ensureClass(map[])
  {
    var m := MakeParams(types);
    t := new TupleHandle(ensureClass(m), vals);
  }

  /**
   * `resolveClass`: the canonical class for a tuple type without
   * parameters, otherwise the class of its resolved element types.
   */
  method ResolveClass(params: seq<TypeId>, resolve: TypeId -> TypeId, canonical: Clazz,
                      ensureClass: map<ParamName, TypeId> -> Clazz) returns (c: Clazz)
    ensures |params| == 0 ==> c == canonical
    ensures |params| > 0 ==>
              c == ensureClass(ParamsOf(seq(|params|, i requires 0 <= i < |params| => resolve(params[i]))))
  {
    if |params| == 0 {
      return canonical;
    }
    var resolved := seq(|params|, i requires 0 <= i < |params| => resolve(params[i]));
    var m := MakeParams(resolved);
    c := ensureClass(m);
  }

  /** `createConstHandle`: the tuple of a constant is made immutable. */
  method CreateConstHandle(types: seq<TypeId>, vals: seq<Handle>, ensureClass: map<ParamName, TypeId> -> Clazz)
    returns (t: TupleHandle)
    ensures fresh(t) && t.values != null && fresh(t.values) && t.values[..] == vals
    ensures !t.mutable && t.clazz == ensureClass(ParamsOf(types))
  {
    var a := new Handle[|vals|](i requires 0 <= i < |vals| => vals[i]);
    t := MakeHandle(types, a, ensureClass);
    t.MakeImmutable();
  }

  // ----- the text of a tuple -----

  /**
   * What `Utils.callToString` gives for one element: its text at once
   * (R_NEXT), its text once the call it starts returns (R_CALL), a raised
   * exception, or another code.
   */
  datatype Shown = ShownNow(s: string) | ShownLater(s: string) | ShowRaised | ShowOther

  /** The element texts, or what stopped at the first element that has none. */
  function ShowAll(vals: seq<Handle>, show: Handle -> Shown): Result<Option<seq<string>>> {
    if vals == [] then Ok(Some([]))
    else match show(vals[0])
      case ShowRaised => Ok(None)
      case ShowOther => Err(IllegalState)
      case _ => Prefixed([show(vals[0]).s], ShowAll(vals[1..], show))
  }

  /** Put `p` in front of a list of texts. */
  function Prefixed(p: seq<string>, r: Result<Option<seq<string>>>): Result<Option<seq<string>>> {
    if r.Ok? && r.value.Some? then Ok(Some(p + r.value.value)) else r
  }

  lemma PrefixedNil(r: Result<Option<seq<string>>>)
    ensures Prefixed([], r) == r
  {
    if r.Ok? && r.value.Some? {
      assert [] + r.value.value == r.value.value;
    }
  }

  lemma PrefixedTwice(p: seq<string>, q: seq<string>, r: Result<Option<seq<string>>>)
    ensures Prefixed(p, Prefixed(q, r)) == Prefixed(p + q, r)
  {
    if r.Ok? && r.value.Some? {
      assert p + (q + r.value.value) == (p + q) + r.value.value;
    }
  }

  /** The texts separated by ", ". */
  function Join(ss: seq<string>): string {
    if |ss| == 0 then ""
    else if |ss| == 1 then ss[0]
    else Join(ss[..|ss| - 1]) + ", " + ss[|ss| - 1]
  }

  /** The texts, each followed by ", ", as the builder collects them. */
  function Trail(ss: seq<string>): string {
    if |ss| == 0 then "" else Trail(ss[..|ss| - 1]) + ss[|ss| - 1] + ", "
  }

  lemma {:induction false} TrailIsJoin(ss: seq<string>)
    requires |ss| > 0
    ensures Trail(ss) == Join(ss) + ", "
  {
    if |ss| > 1 {
      TrailIsJoin(ss[..|ss| - 1]);
    }
  }

  /**
   * The text of a tuple of class text `cls`: `cls(e0, e1, …)`, or an
   * exception or fault from an element.  Without elements the code as
   * written cuts the two characters of a separator that was never appended
   * (the "(" and the class text's last character, or fails when there are
   * fewer than two); the corrected reading gives `cls()`.
   */
  function Render(cls: string, vals: seq<Handle>, show: Handle -> Shown, v: Variant): Result<Option<string>> {
    match ShowAll(vals, show)
    case Err(x) => Err(x)
    case Ok(None) => Ok(None)
    case Ok(Some(ss)) =>
      if |ss| > 0 || v.Corrected? then Ok(Some(cls + "(" + Join(ss) + ")"))
      else if |cls| + 1 < 2 then Err(OutOfBounds)
      else Ok(Some((cls + "(")[..|cls| - 1] + ")"))
  }

  /** `ToString.doNext` from the first element: collect `text, ` per element, then cut the last separator. */
  method RenderTuple(cls: string, vals: seq<Handle>, show: Handle -> Shown, v: Variant)
    returns (r: Result<Option<string>>)
    ensures r == Render(cls, vals, show, v)
  {
    var sb := cls + "(";
    ghost var ss: seq<string> := [];
    var i := 0;
    assert vals[0..] == vals;
    PrefixedNil(ShowAll(vals, show));
    while i < |vals|
      invariant 0 <= i <= |vals| && |ss| == i
      invariant ShowAll(vals, show) == Prefixed(ss, ShowAll(vals[i..], show))
      invariant sb == cls + "(" + Trail(ss)
    {
      assert vals[i..][0] == vals[i] && vals[i..][1..] == vals[i + 1..];
      var sh := show(vals[i]);
      if sh.ShowRaised? {
        return Ok(None);
      }
      if sh.ShowOther? {
        return Err(IllegalState);
      }
      PrefixedTwice(ss, [sh.s], ShowAll(vals[i + 1..], show));
      assert (ss + [sh.s])[..i] == ss;
      ss := ss + [sh.s];
      sb := sb + sh.s + ", ";
      i := i + 1;
    }
    assert vals[i..] == [];
    assert ShowAll(vals, show) == Ok(Some(ss)) by {
      assert ShowAll([], show) == Ok(Some([]));
      assert ss + [] == ss;
    }
    if |vals| > 0 {
      TrailIsJoin(ss);
      assert sb == (cls + "(" + Join(ss)) + ", ";
      assert sb[..|sb| - 2] == cls + "(" + Join(ss);
    } else {
      assert sb == cls + "(";
      if v.Corrected? {
        assert Join(ss) == "";
        return Ok(Some(sb + ")"));
      }
    }
    if |sb| < 2 {
      return Err(OutOfBounds);
    }
    sb := sb[..|sb| - 2];
    return Ok(Some(sb + ")"));
  }

  /** Elements that all have a text give the class text and the element texts in parentheses. */
  lemma RenderShowsElements(cls: string, vals: seq<Handle>, show: Handle -> Shown, v: Variant, ss: seq<string>)
    requires |vals| == |ss| > 0
    requires forall i :: 0 <= i < |vals| ==> show(vals[i]) in {ShownNow(ss[i]), ShownLater(ss[i])}
    ensures Render(cls, vals, show, v) == Ok(Some(cls + "(" + Join(ss) + ")"))
  {
    ShowAllTexts(vals, show, ss);
  }

  lemma {:induction false} ShowAllTexts(vals: seq<Handle>, show: Handle -> Shown, ss: seq<string>)
    requires |vals| == |ss|
    requires forall i :: 0 <= i < |vals| ==> show(vals[i]) in {ShownNow(ss[i]), ShownLater(ss[i])}
    ensures ShowAll(vals, show) == Ok(Some(ss))
  {
    if vals != [] {
      assert show(vals[0]) in {ShownNow(ss[0]), ShownLater(ss[0])};
      forall i | 0 <= i < |vals| - 1
        ensures show(vals[1..][i]) in {ShownNow(ss[1..][i]), ShownLater(ss[1..][i])}
      {
        assert vals[1..][i] == vals[i + 1] && ss[1..][i] == ss[i + 1];
      }
      ShowAllTexts(vals[1..], show, ss[1..]);
      assert [ss[0]] + ss[1..] == ss;
    }
  }

  /**
   * The empty tuple of class `Tuple`: as written its text is `Tupl)`, where
   * `Tuple()` is meant.
   */
  lemma EmptyTupleText(show: Handle -> Shown)
    ensures Render("Tuple", [], show, AsWritten) == Ok(Some("Tupl)"))
    ensures Render("Tuple", [], show, Corrected) == Ok(Some("Tuple()"))
  {
    assert ShowAll([], show) == Ok(Some([]));
    var c := "Tuple";
    assert |c| == 5;
    assert (c + "(")[..4] == "Tupl";
    assert "Tupl" + ")" == "Tupl)";
    assert Join([]) == "";
    assert c + "(" + "" + ")" == "Tuple()";
  }
}
