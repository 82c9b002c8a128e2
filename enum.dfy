/**
 * The `Enum` template: an enumeration's values are the ENUMVALUE children
 * of its class, numbered 0, 1, 2, … in child order; the template keeps
 * their names and handles in two parallel tables, indexed by ordinal.
 */
module Enums {
  import opened Base

  /** A child of the enumeration's class: its name, identity, and whether it is an enum value. */
  datatype Child = Child(name: string, id: nat, isValue: bool)

  /** `EnumHandle`: the (struct) class of the value and its ordinal; always immutable. */
  datatype EnumHandle = EnumHandle(clazz: nat, ordinal: int, mutable: bool)

  /** `makeEnumHandle` and the `EnumHandle` constructor: handles are created immutable. */
  function MakeEnumHandle(clazz: nat, ordinal: int): (h: EnumHandle)
    ensures h.clazz == clazz && h.ordinal == ordinal && !h.mutable
  {
    EnumHandle(clazz, ordinal, false)
  }

  /** The enum-value children, in child order. */
  function Values(cs: seq<Child>): (r: seq<Child>)
    ensures |r| <= |cs|
    ensures forall i :: 0 <= i < |r| ==> r[i].isValue && r[i] in cs
  {
    if cs == [] then [] else Values(cs[..|cs| - 1]) + (if cs[|cs| - 1].isValue then [cs[|cs| - 1]] else [])
  }

  /** The ordinal table: value `i` gets ordinal `i` and the class `ensureClass` gives for it. */
  function Table(cs: seq<Child>, ensureClass: nat -> nat): (r: seq<EnumHandle>)
    ensures |r| == |Values(cs)|
    ensures forall i :: 0 <= i < |r| ==> r[i] == MakeEnumHandle(ensureClass(Values(cs)[i].id), i)
  {
    var vs := Values(cs);
    seq(|vs|, i requires 0 <= i < |vs| => MakeEnumHandle(ensureClass(vs[i].id), i))
  }

  /** The name table: the names of the value children, in order. */
  function Names(cs: seq<Child>): (r: seq<string>)
    ensures |r| == |Values(cs)|
    ensures forall i :: 0 <= i < |r| ==> r[i] == Values(cs)[i].name
  {
    var vs := Values(cs);
    seq(|vs|, i requires 0 <= i < |vs| => vs[i].name)
  }

  /** The first child with identity `id`. */
  function FirstWithId(cs: seq<Child>, id: nat): (r: Option<nat>)
    ensures r.Some? ==> r.value < |cs| && cs[r.value].id == id && forall j :: 0 <= j < r.value ==> cs[j].id != id
    ensures r.None? ==> forall j :: 0 <= j < |cs| ==> cs[j].id != id
  {
    if cs == [] then None
    else if cs[0].id == id then Some(0)
    else match FirstWithId(cs[1..], id)
      case None => None
      case Some(k) => Some(k + 1)
  }

  /** `getEnumByOrdinal`: no handle for a negative ordinal; one past the table is an index fault. */
  function ByOrdinal(handles: seq<EnumHandle>, ix: int): (r: Result<Option<EnumHandle>>)
    ensures ix < 0 <==> r == Ok(None)
    ensures r.Err? <==> ix >= |handles|
    ensures r.Ok? && r.value.Some? ==> 0 <= ix < |handles| && r.value.value == handles[ix]
  {
    if ix < 0 then Ok(None) else if ix >= |handles| then Err(OutOfBounds) else Ok(Some(handles[ix]))
  }

  /**
   * `getEnumByOrdinal` on a table that may not have been set: a negative
   * ordinal gives no handle without touching the table; otherwise a missing
   * table is a null dereference.
   */
  function ByOrdinalIn(table: Option<seq<EnumHandle>>, ix: int): (r: Result<Option<EnumHandle>>)
    ensures ix < 0 ==> r == Ok(None)
    ensures ix >= 0 && table.None? ==> r == Err(NullPointer)
    ensures table.Some? ==> r == ByOrdinal(table.value, ix)
  {
    if ix < 0 then Ok(None)
    else if table.None? then Err(NullPointer)
    else ByOrdinal(table.value, ix)
  }

  /**
   * `getEnumByConstant`: the handle at the position of the child with the
   * identity.  As written the position counts every child; corrected it
   * counts only the enum values before it, and a child that is no value has
   * no handle.
   */
  function ByConstant(cs: seq<Child>, handles: Option<seq<EnumHandle>>, id: nat, v: Variant): Result<Option<EnumHandle>> {
    match FirstWithId(cs, id)
    case None => Ok(None)
    case Some(p) =>
      if v.AsWritten? then ByOrdinalIn(handles, p)
      else if cs[p].isValue then ByOrdinalIn(handles, |Values(cs[..p])|)
      else Ok(None)
  }

  /** The first index of `x` in `s`, or -1: `List.indexOf`. */
  function IndexOf(s: seq<string>, x: string): (r: int)
    ensures -1 <= r < |s|
    ensures r >= 0 ==> s[r] == x && forall j :: 0 <= j < r ==> s[j] != x
    ensures r == -1 <==> x !in s
  {
    if s == [] then -1
    else if s[0] == x then 0
    else var k := IndexOf(s[1..], x); if k == -1 then -1 else k + 1
  }

  /** Enum values are equal and identical exactly when their ordinals are. */
  function Equal(h1: EnumHandle, h2: EnumHandle): (r: bool)
    ensures r <==> h2.ordinal == h1.ordinal
    ensures r ==> h1.ordinal - h2.ordinal == 0
  {
    h1.ordinal == h2.ordinal
  }

  /** `callCompare`: the difference of the ordinals. */
  function Compare(h1: EnumHandle, h2: EnumHandle): (d: int)
    ensures d == 0 <==> Equal(h1, h2)
    ensures d < 0 <==> h1.ordinal < h2.ordinal
  {
    h1.ordinal - h2.ordinal
  }

  /** `buildHashCode`: the ordinal. */
  function Hash(h: EnumHandle): (r: int)
    ensures forall h2 :: Equal(h, h2) ==> h2.ordinal == r
  {
    h.ordinal
  }

  /** The comparison is antisymmetric and equal values hash alike. */
  lemma OrderingConsistent(h1: EnumHandle, h2: EnumHandle)
    ensures Compare(h1, h2) == -Compare(h2, h1)
    ensures Equal(h1, h2) <==> Equal(h2, h1)
    ensures Equal(h1, h2) ==> Hash(h1) == Hash(h2)
  {
  }

  /** `EnumHandle.equals`: the same class and the same ordinal. */
  function HandleEquals(h1: EnumHandle, h2: EnumHandle): (b: bool)
    ensures b ==> Equal(h1, h2) && Hash(h1) == Hash(h2)
    ensures b <==> h1.clazz == h2.clazz && Compare(h1, h2) == 0
  {
    h1.clazz == h2.clazz && h1.ordinal == h2.ordinal
  }

  /** The values of a native property of an enum value. */
  datatype Prop = NameProp(name: string) | OrdinalProp(ordinal: int) | Inherited | PropFault(fault: Fault)

  /** The `Enum` template of one enumeration class. */
  class EnumTemplate {
    const children: seq<Child>
    /** The class is an enumeration (format ENUM). */
    const isEnum: bool
    /** The template is the one of `Enum` itself. */
    const isRoot: bool
    /** `m_listNames` and `m_listHandles`: null until `initDeclared` sets them. */
    var names: Option<seq<string>>
    var handles: Option<seq<EnumHandle>>

    constructor (children: seq<Child>, isEnum: bool, isRoot: bool)
      ensures this.children == children && this.isEnum == isEnum && this.isRoot == isRoot
      ensures names == None && handles == None
    {
      this.children := children;
      this.isEnum := isEnum;
      this.isRoot := isRoot;
      names := None;
      handles := None;
    }

    /**
     * `initDeclared`: for an enumeration other than `Enum` itself, number the
     * enum-value children from 0 in child order and record their names and
     * handles under their ordinals.
     */
    method InitDeclared(ensureClass: nat -> nat)
      modifies this`names, this`handles
      ensures !isRoot && isEnum ==> names == Some(Names(children)) && handles == Some(Table(children, ensureClass))
      ensures isRoot || !isEnum ==> names == old(names) && handles == old(handles)
    {
      if isRoot || !isEnum {
        return;
      }
      var ns: seq<string> := [];
      var hs: seq<EnumHandle> := [];
      var ordinal := 0;
      for k := 0 to |children|
        invariant ordinal == |Values(children[..k])| == |ns| == |hs|
        invariant forall i :: 0 <= i < ordinal ==> ns[i] == Values(children[..k])[i].name
        invariant forall i :: 0 <= i < ordinal ==> hs[i] == MakeEnumHandle(ensureClass(Values(children[..k])[i].id), i)
      {
        assert children[..k + 1][..k] == children[..k];
        var child := children[k];
        if child.isValue {
          var h := MakeEnumHandle(ensureClass(child.id), ordinal);
          ordinal := ordinal + 1;
          ns := ns + [child.name];
          hs := hs + [h];
        }
      }
      assert children[..|children|] == children;
      assert ns == Names(children) && hs == Table(children, ensureClass);
      names := Some(ns);
      handles := Some(hs);
    }

    /**
     * `getEnumByName`: the handle under the first index of the name, or
     * none; tables that were never set are a null dereference.
     */
    function GetEnumByName(name: string): (r: Result<Option<EnumHandle>>)
      reads this
      ensures names.None? ==> r == Err(NullPointer)
      ensures names.Some? && name !in names.value ==> r == Ok(None)
      ensures names.Some? && name in names.value && handles.None? ==> r == Err(NullPointer)
      ensures names.Some? && name in names.value && handles.Some? ==>
                var ix := IndexOf(names.value, name);
                (ix < |handles.value| ==> r == Ok(Some(handles.value[ix]))) &&
                (ix >= |handles.value| ==> r == Err(OutOfBounds))
    {
      if names.None? then Err(NullPointer)
      else
        var ix := IndexOf(names.value, name);
        if ix >= 0 then ByOrdinalIn(handles, ix) else Ok(None)
    }

    /** `getEnumByOrdinal`. */
    function GetEnumByOrdinal(ix: int): (r: Result<Option<EnumHandle>>)
      reads this
      ensures ix < 0 ==> r == Ok(None)
      ensures ix >= 0 && handles.None? ==> r == Err(NullPointer)
      ensures handles.Some? ==> r == ByOrdinal(handles.value, ix)
    {
      ByOrdinalIn(handles, ix)
    }

    /**
     * `getEnumByConstant`: walk the children, counting positions, and give
     * the handle of the position of the child with the identity.
     */
    method GetEnumByConstant(id: nat, v: Variant) returns (r: Result<Option<EnumHandle>>)
      ensures !isEnum ==> r == Err(IllegalState)
      ensures isEnum ==> r == ByConstant(children, handles, id, v)
    {
      if !isEnum {
        return Err(IllegalState);
      }
      var i := 0;
      for k := 0 to |children|
        invariant i == if v.AsWritten? then k else |Values(children[..k])|
        invariant forall j :: 0 <= j < k ==> children[j].id != id
      {
        var child := children[k];
        assert children[..k + 1][..k] == children[..k];
        if child.id == id {
          FirstIdAt(children, id, k);
          if v.Corrected? && !child.isValue {
            return Ok(None);
          }
          return GetEnumByOrdinal(i);
        }
        if v.AsWritten? || child.isValue {
          i := i + 1;
        }
      }
      return Ok(None);
    }

    /** `invokeNativeGet`: the "name" and "ordinal" properties; others are the superclass's. */
    function NativeGet(prop: string, h: EnumHandle): (r: Prop)
      reads this
      ensures prop == "name" && names.None? ==> r == PropFault(NullPointer)
      ensures prop == "name" && names.Some? && 0 <= h.ordinal < |names.value| ==> r == NameProp(names.value[h.ordinal])
      ensures prop == "name" && names.Some? && !(0 <= h.ordinal < |names.value|) ==> r == PropFault(OutOfBounds)
      ensures prop == "ordinal" ==> r == OrdinalProp(h.ordinal)
      ensures prop != "name" && prop != "ordinal" ==> r == Inherited
    {
      if prop == "name" then
        if names.None? then PropFault(NullPointer)
        else if 0 <= h.ordinal < |names.value| then NameProp(names.value[h.ordinal]) else PropFault(OutOfBounds)
      else if prop == "ordinal" then OrdinalProp(h.ordinal)
      else Inherited
    }

    /** `buildStringValue`: the name under the ordinal. */
    function StringValue(h: EnumHandle): (r: Result<string>)
      reads this
      ensures r.Ok? <==> names.Some? && 0 <= h.ordinal < |names.value|
      ensures r.Ok? ==> r.value == names.value[h.ordinal] && NativeGet("name", h) == NameProp(r.value)
      ensures r.Err? ==> NativeGet("name", h) == PropFault(r.fault)
    {
      if names.None? then Err(NullPointer)
      else if 0 <= h.ordinal < |names.value| then Ok(names.value[h.ordinal]) else Err(OutOfBounds)
    }
  }

  lemma FirstIdAt(cs: seq<Child>, id: nat, k: nat)
    requires k < |cs| && cs[k].id == id && forall j :: 0 <= j < k ==> cs[j].id != id
    ensures FirstWithId(cs, id) == Some(k)
  {
  }

  /** The values before child `p` and the value it is: value `|Values(cs[..p])|` is `cs[p]`. */
  lemma {:induction false} ValueAtPosition(cs: seq<Child>, p: nat)
    requires p < |cs| && cs[p].isValue
    ensures |Values(cs[..p])| < |Values(cs)|
    ensures Values(cs)[|Values(cs[..p])|] == cs[p]
    decreases |cs|
  {
    var init := cs[..|cs| - 1];
    if p == |cs| - 1 {
      assert cs[..p] == init;
    } else {
      assert init[..p] == cs[..p];
      ValueAtPosition(init, p);
    }
  }

  /**
   * After `initDeclared`, value `i` is found by its ordinal, and by its
   * name when the names are distinct; its handle has ordinal `i` and the
   * name `names[i]`.
   */
  lemma TableLookups(cs: seq<Child>, ensureClass: nat -> nat, i: int)
    requires 0 <= i < |Values(cs)|
    requires forall a, b :: 0 <= a < b < |Values(cs)| ==> Values(cs)[a].name != Values(cs)[b].name
    ensures ByOrdinal(Table(cs, ensureClass), i) == Ok(Some(Table(cs, ensureClass)[i]))
    ensures Table(cs, ensureClass)[i].ordinal == i
    ensures IndexOf(Names(cs), Names(cs)[i]) == i
  {
  }

  /**
   * With distinct identities, the corrected lookup by constant gives each
   * enum value the handle made for that very value.
   */
  lemma CorrectedFindsValue(cs: seq<Child>, ensureClass: nat -> nat, p: nat)
    requires p < |cs| && cs[p].isValue
    requires forall a, b :: 0 <= a < b < |cs| ==> cs[a].id != cs[b].id
    ensures var r := ByConstant(cs, Some(Table(cs, ensureClass)), cs[p].id, Corrected);
            r.Ok? && r.value.Some? && r.value.value.clazz == ensureClass(cs[p].id) &&
            r.value.value.ordinal == |Values(cs[..p])|
  {
    FirstIdAt(cs, cs[p].id, p);
    ValueAtPosition(cs, p);
  }

  /**
   * An enumeration whose first child is a method: as written, the lookup
   * of the first value `A` gives the handle of the second value `B`.
   */
  lemma LookupByPositionCountsAllChildren()
    ensures var cs := [Child("m", 7, false), Child("A", 8, true), Child("B", 9, true)];
            var t := Table(cs, (id: nat) => id);
            ByConstant(cs, Some(t), 8, AsWritten) == Ok(Some(MakeEnumHandle(9, 1))) &&
            ByConstant(cs, Some(t), 8, Corrected) == Ok(Some(MakeEnumHandle(8, 0)))
  {
    var cs := [Child("m", 7, false), Child("A", 8, true), Child("B", 9, true)];
    assert cs[..2][..1] == [cs[0]] && cs[..2] == [cs[0], cs[1]] && cs[..1] == [cs[0]];
    assert Values([cs[0]]) == [] by {
      assert [cs[0]][..0] == [];
    }
    assert Values(cs[..2]) == [cs[1]];
    assert Values(cs) == [cs[1], cs[2]];
    FirstIdAt(cs, 8, 1);
  }
}
