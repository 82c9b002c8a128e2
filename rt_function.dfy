/**
 * Function handles of the reflective `Function` template: binding arguments
 * one at a time (`SingleBoundHandle`) or all at once (`FullyBoundHandle`),
 * where a bound function's arguments go in the variable array of the
 * underlying function, calls through a tuple of arguments, and the
 * hand-over of a call to another service.
 */
module Functions {
  import opened Base
  import opened Protocol
  import Scheduler

  /**
   * A function handle: the underlying function with its parameter and
   * variable counts and mutability, or a handle that binds one argument of
   * its delegate.  `iArg` is the index among the delegate's parameters, or
   * -1 for the target.
   */
  datatype Fn =
    | Base(params: nat, vars: nat, mutable: bool)
    | SingleBound(delegate: Fn, iArg: int, arg: Handle)

  /** `getParamCount`: binding an argument leaves one parameter fewer; binding the target none. */
  function ParamCount(f: Fn): (n: int)
    ensures Underlying(f).params - |BoundValues(f)| <= n <= Underlying(f).params
  {
    match f
    case Base(n, _, _) => n
    case SingleBound(d, m, _) => if m == -1 then ParamCount(d) else ParamCount(d) - 1
  }

  /** `getVarCount`: that of the underlying function. */
  function VarCount(f: Fn): nat {
    match f
    case Base(_, v, _) => v
    case SingleBound(d, _, _) => VarCount(d)
  }

  /** The underlying function. */
  function Underlying(f: Fn): (b: Fn)
    ensures b.Base?
  {
    match f
    case Base(_, _, _) => f
    case SingleBound(d, _, _) => Underlying(d)
  }

  /** The values a handle binds, outermost first. */
  function BoundValues(f: Fn): seq<Handle> {
    match f
    case Base(_, _, _) => []
    case SingleBound(d, _, h) => [h] + BoundValues(d)
  }

  /** `isMutable`: a bound value is mutable, or the delegate is. */
  function IsMutable(f: Fn): (r: bool)
    ensures Underlying(f).mutable ==> r
    ensures BoundValues(f) != [] && Mutable(BoundValues(f)[0]) ==> r
  {
    match f
    case Base(_, _, m) => m
    case SingleBound(d, _, h) => Mutable(h) || IsMutable(d)
  }

  /** Some handle of `s` is mutable. */
  predicate SomeMutable(s: seq<Handle>) {
    exists i :: 0 <= i < |s| && Mutable(s[i])
  }

  /** A handle is mutable exactly when its underlying function or one of its bound values is. */
  lemma {:induction false} MutableIffSomeBoundValue(f: Fn)
    ensures IsMutable(f) <==> Underlying(f).mutable || SomeMutable(BoundValues(f))
  {
    match f
    case Base(_, _, _) =>
    case SingleBound(d, _, h) =>
      MutableIffSomeBoundValue(d);
      SomeMutableCons(h, BoundValues(d));
  }

  lemma SomeMutableCons(h: Handle, ds: seq<Handle>)
    ensures SomeMutable([h] + ds) <==> Mutable(h) || SomeMutable(ds)
  {
    var bs := [h] + ds;
    assert bs[0] == h;
    if SomeMutable(ds) {
      var i :| 0 <= i < |ds| && Mutable(ds[i]);
      assert bs[i + 1] == ds[i];
    }
    if SomeMutable(bs) {
      var i :| 0 <= i < |bs| && Mutable(bs[i]);
      if i > 0 {
        assert bs[i] == ds[i - 1];
      }
    }
  }

  /**
   * `calculateShift`: the distance from a handle's argument index to the
   * underlying function's parameter index, one for each argument binding at
   * or below the index; the delegate is asked about the same index.
   */
  function Shift(f: Fn, i: int): (s: int)
    ensures 0 <= s <= |BoundValues(f)|
  {
    match f
    case Base(_, _, _) => 0
    case SingleBound(d, m, _) => (if m == -1 || i < m then 0 else 1) + Shift(d, i)
  }

  /**
   * The shift as the delegate's numbering requires: an index at or after the
   * bound one is the delegate's next parameter, and that index is the one to
   * ask the delegate about.
   */
  function CorrectShift(f: Fn, i: int): int {
    match f
    case Base(_, _, _) => 0
    case SingleBound(d, m, _) =>
      var s := if m == -1 || i < m then 0 else 1;
      s + CorrectShift(d, i + s)
  }

  /**
   * The underlying function's parameter that answers argument `i`, by the
   * corrected shift (`getParam(i)` as written uses `Shift` instead; see
   * `ParamLookup`).
   */
  function ParamIndex(f: Fn, i: int): int {
    i + CorrectShift(f, i)
  }

  /** `getParam(i)`: as written by `calculateShift`, corrected by `ParamIndex`. */
  function ParamLookup(f: Fn, i: int, v: Variant): (k: int)
    ensures v == Corrected ==> k == ParamIndex(f, i)
    ensures v == AsWritten ==> k == i + Shift(f, i)
  {
    if v == AsWritten then i + Shift(f, i) else ParamIndex(f, i)
  }

  /** With one binding the two shifts agree. */
  lemma ShiftOfOneBinding(d: Fn, m: int, h: Handle, i: int)
    requires d.Base?
    ensures Shift(SingleBound(d, m, h), i) == CorrectShift(SingleBound(d, m, h), i)
  {
  }

  /**
   * `calculateShift` with two argument bindings: binding parameter 1 and then
   * parameter 0 of a three-parameter function leaves its last parameter
   * (index 2) as argument 0, but the shift names parameter 1, which is bound.
   */
  lemma ShiftMissesEarlierBinding(ha: Handle, hb: Handle)
    ensures var f := SingleBound(SingleBound(Base(3, 3, false), 1, hb), 0, ha);
            ParamCount(f) == 1 && 0 + Shift(f, 0) == 1 && ParamIndex(f, 0) == 2
  {
    var b := Base(3, 3, false);
    var g := SingleBound(b, 1, hb);
    var f := SingleBound(g, 0, ha);
    assert ParamCount(g) == 2;
    assert ParamCount(f) == 1;
    assert Shift(g, 0) == 0;
    assert Shift(f, 0) == 1;
    assert CorrectShift(b, 2) == 0;
    assert CorrectShift(g, 1) == 1;
    assert CorrectShift(f, 0) == 2;
  }

  /** Move `s[m..m + n]` one slot to the right, as `System.arraycopy(s, m, s, m + 1, n)` does. */
  function ShiftRight(s: seq<Option<Handle>>, m: nat, n: nat): (r: seq<Option<Handle>>)
    requires m + 1 + n <= |s|
    ensures |r| == |s|
    ensures forall i {:trigger r[i]} :: 0 <= i < |s| ==> r[i] == (if m + 1 <= i < m + 1 + n then s[i - 1] else s[i])
  {
    s[..m + 1] + s[m..m + n] + s[m + 1 + n..]
  }

  /**
   * `addBoundArguments` on the variable array `s`: each argument binding,
   * outermost first, moves the arguments after its index one slot right and
   * stores its value at its index.  The flag is false when an array bound was
   * overstepped; the array is then as the failing step left it.
   */
  function BoundArgs(f: Fn, s: seq<Option<Handle>>): (r: (bool, seq<Option<Handle>>))
    ensures |r.1| == |s|
  {
    match f
    case Base(_, _, _) => (true, s)
    case SingleBound(d, m, h) =>
      if m >= 0 then
        var cMove := ParamCount(d) - (m + 1);
        if cMove > 0 && m + 1 + cMove > |s| then (false, s)
        else
          var s1 := if cMove > 0 then ShiftRight(s, m, cMove) else s;
          if m >= |s1| then (false, s1)
          else BoundArgs(d, s1[m := Some(h)])
      else BoundArgs(d, s)
  }

  /** Every binding is the target or an argument within the delegate's parameters. */
  predicate WellBound(f: Fn) {
    match f
    case Base(_, _, _) => true
    case SingleBound(d, m, _) => (m == -1 || 0 <= m < ParamCount(d)) && WellBound(d)
  }

  lemma {:induction false} ParamCountBelowUnderlying(f: Fn)
    requires WellBound(f)
    ensures 0 <= ParamCount(f) <= Underlying(f).params
  {
    match f
    case Base(_, _, _) =>
    case SingleBound(d, _, _) => ParamCountBelowUnderlying(d);
  }

  /** Within a well-bound handle, `ParamIndex` names one of the underlying function's parameters. */
  lemma {:induction false} ParamIndexInRange(f: Fn, i: int)
    requires WellBound(f) && 0 <= i < ParamCount(f)
    ensures 0 <= ParamIndex(f, i) < Underlying(f).params
  {
    match f
    case Base(_, _, _) =>
    case SingleBound(d, m, _) =>
      var s := if m == -1 || i < m then 0 else 1;
      assert ParamIndex(f, i) == ParamIndex(d, i + s);
      ParamIndexInRange(d, i + s);
  }

  /** Argument `j` of `f`, taken from `s[j]`, is at parameter `ParamIndex(f, j)` of `t`. */
  predicate Placed(f: Fn, s: seq<Option<Handle>>, t: seq<Option<Handle>>) {
    forall j :: 0 <= j < ParamCount(f) && j < |s| ==>
      0 <= ParamIndex(f, j) < |t| && t[ParamIndex(f, j)] == s[j]
  }

  /**
   * The binding places every argument of the bound handle where the
   * underlying function expects it: argument `j` ends up at parameter
   * `ParamIndex(f, j)`, provided the array holds the underlying parameters.
   */
  lemma {:induction false} BoundArgsPlaceArguments(f: Fn, s: seq<Option<Handle>>)
    requires WellBound(f) && Underlying(f).params <= |s|
    ensures BoundArgs(f, s).0
    ensures ParamCount(f) <= |s|
    ensures Placed(f, s, BoundArgs(f, s).1)
  {
    match f
    case Base(_, _, _) =>
    case SingleBound(d, m, h) =>
      ParamCountBelowUnderlying(d);
      if m >= 0 {
        var s2 := BindStep(d, m, h, s);
        BoundArgsPlaceArguments(d, s2);
        PlacedAfterBinding(d, m, h, s, s2, BoundArgs(d, s2).1);
      } else {
        BoundArgsPlaceArguments(d, s);
        var t := BoundArgs(d, s).1;
        forall j | 0 <= j < ParamCount(f) && j < |s|
          ensures 0 <= ParamIndex(f, j) < |t| && t[ParamIndex(f, j)] == s[j]
        {
          assert ParamIndex(f, j) == ParamIndex(d, j);
        }
      }
  }

  /** The placement the delegate makes of `s2` is the bound handle's placement of `s`. */
  lemma PlacedAfterBinding(d: Fn, m: int, h: Handle, s: seq<Option<Handle>>, s2: seq<Option<Handle>>, t: seq<Option<Handle>>)
    requires 0 <= m < ParamCount(d) <= |s| == |s2|
    requires forall j :: 0 <= j < ParamCount(d) - 1 ==> s2[if j < m then j else j + 1] == s[j]
    requires Placed(d, s2, t)
    ensures Placed(SingleBound(d, m, h), s, t)
  {
    var f := SingleBound(d, m, h);
    forall j | 0 <= j < ParamCount(f) && j < |s|
      ensures 0 <= ParamIndex(f, j) < |t| && t[ParamIndex(f, j)] == s[j]
    {
      var j1 := if j < m then j else j + 1;
      assert ParamIndex(f, j) == ParamIndex(d, j1);
      assert s2[j1] == s[j];
    }
  }

  /**
   * One argument binding within bounds: the delegate then binds the array
   * `s2`, which holds argument `j` at `j` before the bound index and at
   * `j + 1` from it on.
   */
  lemma BindStep(d: Fn, m: int, h: Handle, s: seq<Option<Handle>>) returns (s2: seq<Option<Handle>>)
    requires 0 <= m < ParamCount(d) <= |s|
    ensures |s2| == |s|
    ensures BoundArgs(SingleBound(d, m, h), s) == BoundArgs(d, s2)
    ensures forall j :: 0 <= j < ParamCount(d) - 1 ==> s2[if j < m then j else j + 1] == s[j]
  {
    var cMove := ParamCount(d) - (m + 1);
    var s1 := if cMove > 0 then ShiftRight(s, m, cMove) else s;
    s2 := s1[m := Some(h)];
    forall j | 0 <= j < ParamCount(d) - 1
      ensures s2[if j < m then j else j + 1] == s[j]
    {
      var j1 := if j < m then j else j + 1;
      assert j1 != m && s2[j1] == s1[j1];
      if cMove > 0 {
        assert s1[j1] == (if m + 1 <= j1 < m + 1 + cMove then s[j1 - 1] else s[j1]);
      }
    }
  }

  /** Shift `a[m..m + n]` one slot to the right, from the top down. */
  method ShiftRightInPlace(a: array<Option<Handle>>, m: nat, n: nat)
    requires m + 1 + n <= a.Length
    modifies a
    ensures a[..] == ShiftRight(old(a[..]), m, n)
  {
    ghost var s := a[..];
    var k := n;
    while k > 0
      invariant 0 <= k <= n && |s| == a.Length
      invariant forall i {:trigger a[i]} :: 0 <= i < a.Length ==> a[i] == (if m + k < i <= m + n then s[i - 1] else s[i])
    {
      a[m + k] := a[m + k - 1];
      k := k - 1;
    }
    var t := ShiftRight(s, m, n);
    assert forall i :: 0 <= i < a.Length ==> a[i] == t[i];
    assert a[..] == t;
  }

  /** `addBoundArguments` in place: the array ends as `BoundArgs` says, also when a bound is overstepped. */
  method ApplyBindings(f: Fn, a: array<Option<Handle>>) returns (ok: bool)
    modifies a
    ensures (ok, a[..]) == BoundArgs(f, old(a[..]))
    decreases f
  {
    match f
    case Base(_, _, _) =>
      ok := true;
    case SingleBound(d, m, h) =>
      if m >= 0 {
        var cMove := ParamCount(d) - (m + 1);
        if cMove > 0 {
          if m + 1 + cMove > a.Length {
            return false;
          }
          ShiftRightInPlace(a, m, cMove);
        }
        if m >= a.Length {
          return false;
        }
        a[m] := Some(h);
      }
      ok := ApplyBindings(d, a);
  }

  /**
   * `FullyBoundHandle`: all arguments bound; `NO_OP` is the one without a
   * delegate.  Handles can be chained, to run one after the other.
   */
  class FullyBound {
    const delegate: Option<Fn>
    const args: seq<Handle>
    const noOp: bool
    var next: Option<FullyBound>

    constructor (delegate: Option<Fn>, args: seq<Handle>, noOp: bool)
      ensures this.delegate == delegate && this.args == args && this.noOp == noOp && next.None?
    {
      this.delegate := delegate;
      this.args := args;
      this.noOp := noOp;
      next := None;
    }

    /** `isMutable`: some bound argument or the delegate is mutable (a missing delegate is a null dereference). */
    function IsMutableHandle(): (r: Result<bool>)
      ensures (exists i :: 0 <= i < |args| && Mutable(args[i])) ==> r == Ok(true)
      ensures (forall i :: 0 <= i < |args| ==> !Mutable(args[i])) ==>
                r == (if delegate.None? then Err(NullPointer) else Ok(IsMutable(delegate.value)))
    {
      if exists i :: 0 <= i < |args| && Mutable(args[i]) then Ok(true)
      else if delegate.None? then Err(NullPointer)
      else Ok(IsMutable(delegate.value))
    }

    /**
     * `chain`: `NO_OP` chained with a handle is that handle; a handle chained
     * with `NO_OP` is itself, unchanged; otherwise the handle becomes the
     * next one, which must not be set yet.
     */
    method Chain(h: FullyBound) returns (r: Result<FullyBound>)
      modifies this`next
      ensures noOp ==> r == Ok(h) && next == old(next)
      ensures !noOp && h.noOp ==> r == Ok(this) && next == old(next)
      ensures !noOp && !h.noOp && old(next).None? ==> r == Ok(this) && next == Some(h)
      ensures !noOp && !h.noOp && old(next).Some? ==> r == Err(IllegalState) && next == old(next)
    {
      if noOp {
        return Ok(h);
      }
      if !h.noOp {
        if next.Some? {
          return Err(IllegalState);
        }
        next := Some(h);
      }
      return Ok(this);
    }

    /**
     * `addBoundArguments`: the delegate binds first, then the bound arguments
     * are copied to the front, as many as both arrays hold.
     */
    method AddBoundArguments(a: array<Option<Handle>>) returns (r: Result<bool>)
      modifies a
      ensures delegate.None? ==> r == Err(NullPointer) && a[..] == old(a[..])
      ensures delegate.Some? ==> r.Ok? && r.value == BoundArgs(delegate.value, old(a[..])).0
      ensures delegate.Some? && r.value ==> a[..] == CopyFront(args, BoundArgs(delegate.value, old(a[..])).1)
      ensures delegate.Some? && !r.value ==> a[..] == BoundArgs(delegate.value, old(a[..])).1
    {
      if delegate.None? {
        return Err(NullPointer);
      }
      var ok := ApplyBindings(delegate.value, a);
      if ok {
        CopyFrontInPlace(args, a);
      }
      return Ok(ok);
    }
  }

  /** The first `min(|t|, |args|)` slots of `t` replaced by the bound arguments. */
  function CopyFront(args: seq<Handle>, t: seq<Option<Handle>>): (r: seq<Option<Handle>>)
    ensures |r| == |t|
    ensures forall i :: 0 <= i < |t| ==> r[i] == (if i < |args| then Some(args[i]) else t[i])
  {
    if |t| == 0 then []
    else if |args| == 0 then t
    else [Some(args[0])] + CopyFront(args[1..], t[1..])
  }

  /** `System.arraycopy(args, 0, a, 0, min(a.length, args.length))`. */
  method CopyFrontInPlace(args: seq<Handle>, a: array<Option<Handle>>)
    modifies a
    ensures a[..] == CopyFront(args, old(a[..]))
  {
    ghost var t := a[..];
    var n := if a.Length < |args| then a.Length else |args|;
    for i := 0 to n
      invariant forall k :: 0 <= k < a.Length ==> a[k] == (if k < i then Some(args[k]) else t[k])
    {
      a[i] := Some(args[i]);
    }
    assert a[..] == CopyFront(args, t);
  }

  /** What `invokeInvoke` does: raise for a bad tuple or a bad argument type, or call with these variables. */
  datatype Invoked = InvalidTuple | IllegalCast | CallT(vars: seq<Option<Handle>>) | InvokeFault(fault: Fault)

  /** `Utils.ensureSize`: the arguments, padded with empty slots to the variable count. */
  function Prepared(args: seq<Handle>, cVars: nat): (r: seq<Option<Handle>>)
    ensures |r| == if |args| >= cVars then |args| else cVars
    ensures forall i :: 0 <= i < |r| ==> r[i] == (if i < |args| then Some(args[i]) else None)
  {
    var n := if |args| >= cVars then |args| else cVars;
    seq(n, i requires 0 <= i < n => if i < |args| then Some(args[i]) else None)
  }

  /**
   * Fill the missing arguments `i..n` with the default marker while their
   * parameters have a default: `None` at the first one without, and a fault
   * when the variable array ends first.
   */
  function FillDefaults(vars: seq<Option<Handle>>, i: nat, n: nat, hasDefault: nat -> bool):
    (r: Result<Option<seq<Option<Handle>>>>)
    ensures r == Ok(None) <==>
              exists k :: i <= k < n && !hasDefault(k) && (k == i || k <= |vars|) && forall j :: i <= j < k ==> hasDefault(j)
    ensures r.Ok? && r.value.Some? && i < n ==> n <= |vars|
    ensures r.Ok? && r.value.Some? ==>
              |r.value.value| == |vars| &&
              forall k :: 0 <= k < |vars| ==> r.value.value[k] == (if i <= k < n then Some(Default) else vars[k])
    ensures r.Ok? && r.value.Some? ==> forall k :: i <= k < n ==> hasDefault(k)
    ensures r.Err? ==> r.fault == OutOfBounds && n > |vars|
    decreases n - i
  {
    if i >= n then Ok(Some(vars))
    else if !hasDefault(i) then Ok(None)
    else if i >= |vars| then Err(OutOfBounds)
    else FillDefaults(vars[i := Some(Default)], i + 1, n, hasDefault)
  }

  /**
   * `invokeInvoke`: call a function with the values of a tuple.  More values
   * than parameters is an invalid tuple; fewer is valid only when the
   * function's method is known and every missing parameter has a default,
   * which the call then gets; a value its parameter's type does not accept
   * raises an illegal cast.  Whether a missing parameter has a default is
   * asked of the parameter `getParam` names (`ParamLookup` under `v`).
   */
  function InvokeInvoke(f: Fn, args: seq<Handle>, methodKnown: bool, hasDefault: int -> bool,
                        accepts: (nat, Handle) -> bool, v: Variant): (r: Invoked)
    ensures |args| > ParamCount(f) ==> r == InvalidTuple
    ensures |args| == ParamCount(f) && (forall i :: 0 <= i < |args| ==> accepts(i, args[i])) ==>
              r == CallT(Prepared(args, VarCount(f)))
    ensures r.CallT? ==> |r.vars| == |Prepared(args, VarCount(f))|
    ensures r.CallT? ==> forall i :: 0 <= i < |args| ==> accepts(i, args[i]) && r.vars[i] == Some(args[i])
    ensures r.CallT? && |args| < ParamCount(f) && methodKnown ==>
              ParamCount(f) <= |r.vars| &&
              forall i :: |args| <= i < ParamCount(f) ==> hasDefault(ParamLookup(f, i, v)) && r.vars[i] == Some(Default)
    ensures r == IllegalCast ==> exists i :: 0 <= i < |args| && !accepts(i, args[i])
  {
    var cParams := ParamCount(f);
    var vars := Prepared(args, VarCount(f));
    if |args| > cParams then InvalidTuple
    else
      var dflt := (i: nat) => hasDefault(ParamLookup(f, i, v));
      assert forall i: nat :: dflt(i) == hasDefault(ParamLookup(f, i, v));
      var filled :=
        if |args| < cParams && methodKnown
        then FillDefaults(vars, |args|, cParams, dflt)
        else Ok(Some(vars));
      match filled
      case Err(x) => InvokeFault(x)
      case Ok(None) => InvalidTuple
      case Ok(Some(v)) =>
        if exists i :: 0 <= i < |args| && !accepts(i, args[i]) then IllegalCast
        else CallT(v)
  }

  /**
   * `validateImmutable` from slot `i` on: up to the first empty slot, every
   * mutable argument that is not a service is replaced by its proxy; the
   * answer is false as soon as a proxy cannot be made.
   */
  function Validate(s: seq<Option<Handle>>, i: nat, proxy: Handle -> Option<Handle>): (r: (bool, seq<Option<Handle>>))
    ensures |r.1| == |s|
    ensures forall k :: 0 <= k < i && k < |s| ==> r.1[k] == s[k]
    decreases |s| - i
  {
    if i >= |s| || s[i].None? then (true, s)
    else
      var h := s[i].value;
      if Mutable(h) && !IsService(h) then
        if proxy(h).None? then (false, s)
        else Validate(s[i := proxy(h)], i + 1, proxy)
      else Validate(s, i + 1, proxy)
  }

  /** The index of the first empty slot at or after `i`, or the length. */
  function FirstEmpty(s: seq<Option<Handle>>, i: nat): (k: nat)
    requires i <= |s|
    ensures i <= k <= |s| && (k < |s| ==> s[k].None?) && forall j :: i <= j < k ==> s[j].Some?
    decreases |s| - i
  {
    if i == |s| || s[i].None? then i else FirstEmpty(s, i + 1)
  }

  /** A slot needs a proxy: it holds a mutable argument that is not a service. */
  predicate NeedsProxy(o: Option<Handle>) { o.Some? && Mutable(o.value) && !IsService(o.value) }

  /**
   * `validateImmutable` succeeds exactly when every argument before the
   * first empty slot that needs a proxy gets one; then those arguments are
   * their proxies and every other slot is unchanged.
   */
  lemma ValidateSpec(s: seq<Option<Handle>>, i: nat, proxy: Handle -> Option<Handle>)
    requires i <= |s|
    ensures var e := FirstEmpty(s, i);
            Validate(s, i, proxy).0 <==> forall k :: i <= k < e && NeedsProxy(s[k]) ==> proxy(s[k].value).Some?
    ensures var e := FirstEmpty(s, i);
            Validate(s, i, proxy).0 ==>
              forall k :: 0 <= k < |s| ==>
                Validate(s, i, proxy).1[k] == (if i <= k < e && NeedsProxy(s[k]) then proxy(s[k].value) else s[k])
  {
    ValidateAnswer(s, i, proxy);
    ValidateContents(s, i, proxy);
  }

  lemma {:induction false} ValidateAnswer(s: seq<Option<Handle>>, i: nat, proxy: Handle -> Option<Handle>)
    requires i <= |s|
    ensures Validate(s, i, proxy).0 <==> forall k :: i <= k < FirstEmpty(s, i) && NeedsProxy(s[k]) ==> proxy(s[k].value).Some?
    decreases |s| - i
  {
    if i < |s| && s[i].Some? {
      assert FirstEmpty(s, i) == FirstEmpty(s, i + 1);
      var h := s[i].value;
      if NeedsProxy(s[i]) {
        if proxy(h).Some? {
          var s1 := s[i := proxy(h)];
          ValidateAnswer(s1, i + 1, proxy);
          assert FirstEmpty(s1, i + 1) == FirstEmpty(s, i + 1) by { FirstEmptyUpdate(s, i, proxy(h)); }
          forall k | i + 1 <= k < |s|
            ensures s1[k] == s[k]
          {
          }
        }
      } else {
        ValidateAnswer(s, i + 1, proxy);
      }
    }
  }

  lemma {:induction false} ValidateContents(s: seq<Option<Handle>>, i: nat, proxy: Handle -> Option<Handle>)
    requires i <= |s|
    ensures Validate(s, i, proxy).0 ==>
              forall k :: 0 <= k < |s| ==>
                Validate(s, i, proxy).1[k] == (if i <= k < FirstEmpty(s, i) && NeedsProxy(s[k]) then proxy(s[k].value) else s[k])
    decreases |s| - i
  {
    if i < |s| && s[i].Some? {
      assert FirstEmpty(s, i) == FirstEmpty(s, i + 1);
      var h := s[i].value;
      if NeedsProxy(s[i]) {
        if proxy(h).Some? {
          var s1 := s[i := proxy(h)];
          ValidateContents(s1, i + 1, proxy);
          assert FirstEmpty(s1, i + 1) == FirstEmpty(s, i + 1) by { FirstEmptyUpdate(s, i, proxy(h)); }
          forall k | 0 <= k < |s| && k != i
            ensures s1[k] == s[k]
          {
          }
        }
      } else {
        ValidateContents(s, i + 1, proxy);
      }
    }
  }

  /** Filling a non-empty slot before `i + 1` does not move the first empty slot after it. */
  lemma {:induction false} FirstEmptyUpdate(s: seq<Option<Handle>>, i: nat, o: Option<Handle>)
    requires i < |s|
    ensures FirstEmpty(s[i := o], i + 1) == FirstEmpty(s, i + 1)
    decreases 0
  {
    var t := s[i := o];
    var k := i + 1;
    while k < |s| && s[k].Some?
      invariant i + 1 <= k <= |s|
      invariant FirstEmpty(t, i + 1) == FirstEmpty(t, k) && FirstEmpty(s, i + 1) == FirstEmpty(s, k)
      decreases |s| - k
    {
      k := k + 1;
    }
  }

  /** `validateImmutable` in place on the argument array. */
  method ValidateImmutable(a: array<Option<Handle>>, proxy: Handle -> Option<Handle>) returns (ok: bool)
    modifies a
    ensures (ok, a[..]) == Validate(old(a[..]), 0, proxy)
  {
    ghost var s := a[..];
    var i := 0;
    while i < a.Length
      invariant 0 <= i <= a.Length
      invariant Validate(s, 0, proxy) == Validate(a[..], i, proxy)
    {
      var o := a[i];
      if o.None? {
        return true;
      }
      var h := o.value;
      if Mutable(h) && !IsService(h) {
        var p := proxy(h);
        if p.None? {
          return false;
        }
        a[i] := p;
      }
      i := i + 1;
    }
    return true;
  }

  /** What an asynchronous call to a service function does. */
  datatype AsyncCall =
    | Direct                                // same service: an ordinary call
    | RaiseMutable                          // an argument cannot cross services
    | FireAndForget                         // no value wanted: R_NEXT
    | AwaitFuture(future: Scheduler.Future) // the caller waits for the future

  /**
   * `AsyncHandle.call1Impl`: a call within the same service is direct;
   * otherwise the arguments must be made immutable, and the call is sent to
   * the target service, with a future only when a value is wanted.
   */
  method Call1Async(target: Scheduler.ServiceContext, sameContext: bool, caller: Scheduler.Frame,
                    vars: array<Option<Handle>>, ignoreResult: bool, proxy: Handle -> Option<Handle>)
    returns (r: AsyncCall)
    modifies vars, target`queueMsg
    ensures sameContext ==> r == Direct && vars[..] == old(vars[..]) && target.queueMsg == old(target.queueMsg)
    ensures !sameContext ==> vars[..] == Validate(old(vars[..]), 0, proxy).1
    ensures !sameContext && !Validate(old(vars[..]), 0, proxy).0 ==>
              r == RaiseMutable && target.queueMsg == old(target.queueMsg)
    ensures !sameContext && Validate(old(vars[..]), 0, proxy).0 && ignoreResult ==>
              r == FireAndForget &&
              target.queueMsg == old(target.queueMsg) + [Scheduler.Envelope(Some(caller), Scheduler.Invoke1(0, None))]
    ensures !sameContext && Validate(old(vars[..]), 0, proxy).0 && !ignoreResult ==>
              r.AwaitFuture? && fresh(r.future) && r.future.state == Scheduler.Pending &&
              target.queueMsg == old(target.queueMsg) + [Scheduler.Envelope(Some(caller), Scheduler.Invoke1(1, Some(r.future)))]
  {
    if sameContext {
      return Direct;
    }
    var ok := ValidateImmutable(vars, proxy);
    if !ok {
      return RaiseMutable;
    }
    var cReturns := if ignoreResult then 0 else 1;
    var future := target.SendInvoke1Request(Some(caller), cReturns);
    if cReturns == 0 {
      return FireAndForget;
    }
    return AwaitFuture(future.value);
  }
}
