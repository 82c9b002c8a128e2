/**
 * JMP_VAL: compare a value against a table of case constants and jump to the
 * matching case's address, or to the default address.  The case table is
 * turned into a hash map on first use and cached in the op.
 */
module JumpVal {
  import opened Base
  import opened Protocol

  /** The completion `process` hands over to: `complete(frame, iPC, value)`. */
  datatype Step = Step(iPC: int, value: Handle)

  /** `process`: repeat while the operand is missing, resolve a deferred operand first. */
  function Process(arg: Fetch, iPC: int): (r: OpResult<Step>)
    ensures arg.Unavailable? <==> r == Code(Repeat)
    ensures arg.Thrown? ==> r == Raise(arg.exc)
    ensures r.Raise? ==> arg.Thrown?
    ensures r.Resolve? <==> arg.Got? && IsDeferred(arg.h)
    ensures r.Resolve? ==> r.args == [arg.h] && r.resume == Step(iPC, arg.h)
    ensures r.Complete? <==> arg.Got? && !IsDeferred(arg.h)
    ensures r.Complete? ==> r.step == Step(iPC, arg.h)
  {
    match arg
    case Unavailable => Code(Repeat)
    case Thrown(e) => Raise(e)
    case Got(h) => if IsDeferred(h) then Resolve([h], Step(iPC, h)) else Complete(Step(iPC, h))
  }

  /** The continuation of a deferred operand: complete with the resolved value. */
  function Resume(k: Step, resolved: seq<Handle>): (s: Step)
    requires |resolved| == 1
    ensures s.iPC == k.iPC && s.value == resolved[0]
  {
    Step(k.iPC, resolved[0])
  }

  // ----- the jump map ----------------------------------------------------------------------

  /**
   * The map `ensureJumpMap` builds: each case handle is put with the value
   * `vals[i]`, in case order, so a later equal case replaces an earlier one.
   */
  function BuildMap(cases: seq<Handle>, vals: seq<int>): map<Handle, int>
    requires |cases| == |vals|
    decreases |cases|
  {
    if cases == [] then map[]
    else BuildMap(cases[..|cases| - 1], vals[..|vals| - 1])[cases[|cases| - 1] := vals[|vals| - 1]]
  }

  /** The keys of the jump map are exactly the case handles. */
  lemma {:induction false} BuildMapKeys(cases: seq<Handle>, vals: seq<int>, h: Handle)
    requires |cases| == |vals|
    ensures h in BuildMap(cases, vals) <==> h in cases
    decreases |cases|
  {
    if cases != [] {
      var n := |cases| - 1;
      BuildMapKeys(cases[..n], vals[..n], h);
      assert cases == cases[..n] + [cases[n]];
    }
  }

  /** The entry for a case handle is the value of the last case with that handle. */
  lemma {:induction false} BuildMapLast(cases: seq<Handle>, vals: seq<int>, i: nat)
    requires |cases| == |vals| && i < |cases|
    requires forall j :: i < j < |cases| ==> cases[j] != cases[i]
    ensures cases[i] in BuildMap(cases, vals) && BuildMap(cases, vals)[cases[i]] == vals[i]
    decreases |cases|
  {
    var n := |cases| - 1;
    if i < n {
      BuildMapLast(cases[..n], vals[..n], i);
    }
  }

  /** The case indices: the map the corrected op builds, from each case handle to its case number. */
  function Indices(n: nat): (r: seq<int>)
    ensures |r| == n && forall i :: 0 <= i < n ==> r[i] == i
  {
    seq(n, i => i)
  }

  /**
   * The address `complete` answers as written: the map holds case OFFSETS
   * (`aofCase[i]`), and that offset is then used as an index into `aofCase`.
   */
  function TargetAsWritten(cases: seq<Handle>, aofCase: seq<int>, ofDefault: int, iPC: int, h: Handle): (r: Result<int>)
    requires |cases| == |aofCase|
    ensures h !in cases ==> r == Ok(iPC + ofDefault)
    ensures r.Err? ==> r.fault == OutOfBounds && h in cases
  {
    BuildMapKeys(cases, aofCase, h);
    var m := BuildMap(cases, aofCase);
    if h !in m then Ok(iPC + ofDefault)
    else if 0 <= m[h] < |aofCase| then Ok(iPC + aofCase[m[h]])
    else Err(OutOfBounds)
  }

  /**
   * The address for a value given a jump map: no entry means the default
   * offset; an entry is used as an index into the case offsets.
   */
  function Lookup(m: map<Handle, int>, aofCase: Option<seq<int>>, ofDefault: int, iPC: int, h: Handle): Result<int>
  {
    if h !in m then Ok(iPC + ofDefault)
    else if aofCase.None? then Err(NullPointer)
    else if 0 <= m[h] < |aofCase.value| then Ok(iPC + aofCase.value[m[h]])
    else Err(OutOfBounds)
  }

  /**
   * The corrected completion: the map holds case indices, so a value jumps to
   * the offset of its (last) matching case.
   */
  function Target(cases: seq<Handle>, aofCase: seq<int>, ofDefault: int, iPC: int, h: Handle): (r: Result<int>)
    requires |cases| == |aofCase|
    ensures h !in cases ==> r == Ok(iPC + ofDefault)
  {
    BuildMapKeys(cases, Indices(|cases|), h);
    Lookup(BuildMap(cases, Indices(|cases|)), Some(aofCase), ofDefault, iPC, h)
  }

  /** The case handles `ensureJumpMap` obtains from the frame for the case arguments. */
  function CaseHandles(args: seq<int>, constHandle: int -> Handle): (hs: seq<Handle>)
    ensures |hs| == |args| && forall i :: 0 <= i < |args| ==> hs[i] == constHandle(args[i])
  {
    seq(|args|, i requires 0 <= i < |args| => constHandle(args[i]))
  }

  /** The offsets `resolveAddress` computes for the case destinations. */
  function CaseOffsets(ops: seq<nat>, offsetOf: Option<nat> -> int): (r: seq<int>)
    ensures |r| == |ops| && forall i :: 0 <= i < |ops| ==> r[i] == offsetOf(Some(ops[i]))
  {
    seq(|ops|, i requires 0 <= i < |ops| => offsetOf(Some(ops[i])))
  }

  /** `!hCase.isMutable()` for every case handle. */
  predicate AllImmutable(hs: seq<Handle>)
  {
    forall i :: 0 <= i < |hs| ==> !(hs[i].Obj? && hs[i].mutable)
  }

  /** With case indices in the map, a value equal to case i (and to no later case) jumps to case i's address. */
  lemma TargetOfCase(cases: seq<Handle>, aofCase: seq<int>, ofDefault: int, iPC: int, i: nat)
    requires |cases| == |aofCase| && i < |cases|
    requires forall j :: i < j < |cases| ==> cases[j] != cases[i]
    ensures Target(cases, aofCase, ofDefault, iPC, cases[i]) == Ok(iPC + aofCase[i])
  {
    BuildMapLast(cases, Indices(|cases|), i);
  }

  /**
   * As written, the first of two distinct cases with offsets 1 and 7 does
   * not jump to its own offset 1: it takes the second case's offset 7.
   */
  lemma AsWrittenTakesWrongCase(iPC: int, ofDefault: int)
    ensures TargetAsWritten([Int(10), Int(20)], [1, 7], ofDefault, iPC, Int(10)) == Ok(iPC + 7)
    ensures Target([Int(10), Int(20)], [1, 7], ofDefault, iPC, Int(10)) == Ok(iPC + 1)
  {
    assert BuildMap([Int(10), Int(20)], [1, 7]) == map[Int(10) := 1, Int(20) := 7] by {
      assert [Int(10), Int(20)][..1] == [Int(10)];
      assert [1, 7][..1] == [1];
    }
    TargetOfCase([Int(10), Int(20)], [1, 7], ofDefault, iPC, 0);
  }

  // ----- binary form -----------------------------------------------------------------------

  /** The (argument, offset) pairs of the case table, flattened. */
  function Pairs(args: seq<int>, offsets: seq<int>): (s: seq<int>)
    requires |args| == |offsets|
    ensures |s| == 2 * |args|
    decreases |args|
  {
    if args == [] then [] else [args[0], offsets[0]] + Pairs(args[1..], offsets[1..])
  }

  /** The fields of the op as the deserialization constructor reads them. */
  datatype Fields = Fields(nArg: int, args: seq<int>, offsets: seq<int>, ofDefault: int, rest: seq<int>)

  /** Read `n` (argument, offset) pairs; `None` when input runs out. */
  function DecodePairs(n: nat, s: seq<int>): (r: Option<(seq<int>, seq<int>, seq<int>)>)
    ensures r.Some? ==> |r.value.0| == n && |r.value.1| == n
    decreases n
  {
    if n == 0 then Some(([], [], s))
    else if |s| < 2 then None
    else match DecodePairs(n - 1, s[2..])
      case None => None
      case Some((xs, ys, rest)) => Some(([s[0]] + xs, [s[1]] + ys, rest))
  }

  /** The deserialization constructor: argument, case count, pairs, default offset. */
  function Decode(s: seq<int>): Option<Fields>
  {
    if |s| < 2 || s[1] < 0 then None
    else match DecodePairs(s[1], s[2..])
      case None => None
      case Some((xs, ys, rest)) =>
        if |rest| < 1 then None else Some(Fields(s[0], xs, ys, rest[0], rest[1..]))
  }

  /** Pair decoding inverts pair encoding. */
  lemma {:induction false} PairsRoundTrip(args: seq<int>, offsets: seq<int>, rest: seq<int>)
    requires |args| == |offsets|
    ensures DecodePairs(|args|, Pairs(args, offsets) + rest) == Some((args, offsets, rest))
    decreases |args|
  {
    if args != [] {
      PairsRoundTrip(args[1..], offsets[1..], rest);
      var s := Pairs(args, offsets) + rest;
      assert s[2..] == Pairs(args[1..], offsets[1..]) + rest;
      assert s[0] == args[0] && s[1] == offsets[0];
      assert DecodePairs(|args| - 1, s[2..]) == Some((args[1..], offsets[1..], rest));
      assert DecodePairs(|args|, s) == Some(([s[0]] + args[1..], [s[1]] + offsets[1..], rest));
      assert [args[0]] + args[1..] == args;
      assert [offsets[0]] + offsets[1..] == offsets;
    } else {
      assert offsets == [];
      assert Pairs(args, offsets) + rest == rest;
    }
  }

  /** `write`: op code, argument, case count, (argument, offset) pairs, default offset. */
  function Emitted(opcode: int, nArg: int, args: seq<int>, offsets: seq<int>, ofDefault: int): seq<int>
    requires |args| == |offsets|
  {
    [opcode, nArg, |args|] + Pairs(args, offsets) + [ofDefault]
  }

  /** The reader consumes exactly the writer's output after the op code, in the same order. */
  lemma RoundTrip(opcode: int, nArg: int, args: seq<int>, offsets: seq<int>, ofDefault: int, rest: seq<int>)
    requires |args| == |offsets|
    ensures Decode(Emitted(opcode, nArg, args, offsets, ofDefault)[1..] + rest)
            == Some(Fields(nArg, args, offsets, ofDefault, rest))
  {
    var s := Emitted(opcode, nArg, args, offsets, ofDefault)[1..] + rest;
    assert s[2..] == Pairs(args, offsets) + ([ofDefault] + rest);
    PairsRoundTrip(args, offsets, [ofDefault] + rest);
  }

  // ----- the jump map as `ensureJumpMap` builds it ----------------------------------------

  /**
   * The loop of `ensureJumpMap` from case `i` on, with the map `m` built so
   * far: each case handle is checked to be immutable and then put with its
   * value, which is the case number when corrected and, as written, the
   * case's offset read from `aofCase` (missing or too short an offset table
   * fails there).
   */
  function Checked(hs: seq<Handle>, aofCase: Option<seq<int>>, v: Variant, i: nat, m: map<Handle, int>): Result<map<Handle, int>>
    requires i <= |hs|
    decreases |hs| - i
  {
    if i == |hs| then Ok(m)
    else if Mutable(hs[i]) then Err(IllegalState)
    else if v == Corrected then Checked(hs, aofCase, v, i + 1, m[hs[i] := i])
    else if aofCase.None? then Err(NullPointer)
    else if i >= |aofCase.value| then Err(OutOfBounds)
    else Checked(hs, aofCase, v, i + 1, m[hs[i] := aofCase.value[i]])
  }

  /** The map `ensureJumpMap` builds for the case handles `hs`. */
  function JumpMap(hs: seq<Handle>, aofCase: Option<seq<int>>, v: Variant): Result<map<Handle, int>> {
    Checked(hs, aofCase, v, 0, map[])
  }

  /** The values the two variants put into the map for the first `n` cases. */
  function Stored(aofCase: Option<seq<int>>, v: Variant, n: nat): seq<int>
    requires v == AsWritten ==> aofCase.Some? && n <= |aofCase.value|
  {
    if v == Corrected then Indices(n) else aofCase.value[..n]
  }

  lemma {:induction false} CheckedBuilds(hs: seq<Handle>, aofCase: Option<seq<int>>, v: Variant, i: nat)
    requires i <= |hs| && AllImmutable(hs)
    requires v == AsWritten ==> aofCase.Some? && |hs| <= |aofCase.value|
    ensures Checked(hs, aofCase, v, i, BuildMap(hs[..i], Stored(aofCase, v, i))) ==
            Ok(BuildMap(hs, Stored(aofCase, v, |hs|)))
    decreases |hs| - i
  {
    var ws := Stored(aofCase, v, |hs|);
    if i == |hs| {
      assert hs[..i] == hs;
    } else {
      assert !Mutable(hs[i]);
      var w := if v == Corrected then i else aofCase.value[i];
      assert Stored(aofCase, v, i + 1) == Stored(aofCase, v, i) + [w];
      assert hs[..i + 1] == hs[..i] + [hs[i]];
      assert BuildMap(hs[..i + 1], Stored(aofCase, v, i + 1)) == BuildMap(hs[..i], Stored(aofCase, v, i))[hs[i] := w];
      CheckedBuilds(hs, aofCase, v, i + 1);
    }
  }

  lemma {:induction false} CheckedFindsMutable(hs: seq<Handle>, aofCase: Option<seq<int>>, i: nat, m: map<Handle, int>)
    requires i <= |hs| && exists j :: i <= j < |hs| && Mutable(hs[j])
    ensures Checked(hs, aofCase, Corrected, i, m) == Err(IllegalState)
    decreases |hs| - i
  {
    if !Mutable(hs[i]) {
      CheckedFindsMutable(hs, aofCase, i + 1, m[hs[i] := i]);
    }
  }

  /**
   * Corrected, the jump map takes each case handle to its (last) case number,
   * and a mutable case constant fails the assertion.
   */
  lemma JumpMapCorrected(hs: seq<Handle>, aofCase: Option<seq<int>>)
    ensures AllImmutable(hs) ==> JumpMap(hs, aofCase, Corrected) == Ok(BuildMap(hs, Indices(|hs|)))
    ensures !AllImmutable(hs) ==> JumpMap(hs, aofCase, Corrected) == Err(IllegalState)
  {
    if AllImmutable(hs) {
      assert hs[..0] == [] && Stored(aofCase, Corrected, 0) == [];
      CheckedBuilds(hs, aofCase, Corrected, 0);
    } else {
      CheckedFindsMutable(hs, aofCase, 0, map[]);
    }
  }

  /**
   * As written, with immutable cases and one offset per case, the jump map
   * takes each case handle to its (last) case offset: what `TargetAsWritten`
   * then indexes the offsets with.
   */
  lemma JumpMapAsWritten(hs: seq<Handle>, offsets: seq<int>)
    requires AllImmutable(hs) && |hs| == |offsets|
    ensures JumpMap(hs, Some(offsets), AsWritten) == Ok(BuildMap(hs, offsets))
  {
    assert hs[..0] == [] && Stored(Some(offsets), AsWritten, 0) == [];
    assert offsets[..|hs|] == offsets;
    CheckedBuilds(hs, Some(offsets), AsWritten, 0);
  }

  /**
   * `complete` on a read op: the address the jump map gives is the corrected
   * `Target` or, as written, `TargetAsWritten`.
   */
  lemma CompleteTargets(hs: seq<Handle>, offsets: seq<int>, ofDefault: int, iPC: int, h: Handle, v: Variant)
    requires AllImmutable(hs) && |hs| == |offsets|
    ensures JumpMap(hs, Some(offsets), v).Ok?
    ensures Lookup(JumpMap(hs, Some(offsets), v).value, Some(offsets), ofDefault, iPC, h) ==
            if v == AsWritten then TargetAsWritten(hs, offsets, ofDefault, iPC, h) else Target(hs, offsets, ofDefault, iPC, h)
  {
    if v == AsWritten {
      JumpMapAsWritten(hs, offsets);
    } else {
      JumpMapCorrected(hs, Some(offsets));
    }
  }

  // ----- the op object ---------------------------------------------------------------------

  /** A JumpVal instance with its case table, offsets and cached jump map. */
  class JumpValOp {
    const argVal: Option<nat>          // m_argVal, before encoding
    const aArgCase: Option<seq<nat>>   // m_aArgCase, the case arguments before encoding
    const aOpCase: Option<seq<nat>>    // m_aOpCase, the case destinations by identity
    const opDefault: Option<nat>       // m_opDefault
    var nArg: int
    var anArgCase: Option<seq<int>>    // m_anArgCase, the encoded case arguments
    var aofCase: Option<seq<int>>
    var ofDefault: int
    var mapJump: Option<map<Handle, int>>

    /**
     * The constructor from arguments: the value, the case arguments, the case
     * destinations and the default destination.  Nothing is encoded or
     * resolved yet; the source never derives the encoded case arguments from
     * the case arguments, so there are none.
     */
    constructor (arg: nat, argCases: seq<nat>, opCases: seq<nat>, opDefault: nat)
      ensures argVal == Some(arg) && aArgCase == Some(argCases) && aOpCase == Some(opCases)
      ensures this.opDefault == Some(opDefault)
      ensures nArg == 0 && anArgCase.None? && aofCase.None? && ofDefault == 0 && mapJump.None?
    {
      argVal, aArgCase, aOpCase, this.opDefault := Some(arg), Some(argCases), Some(opCases), Some(opDefault);
      nArg, anArgCase, aofCase, ofDefault := 0, None, None, 0;
      mapJump := None;
    }

    /** The deserialization constructor, given the fields `Decode` read. */
    constructor Read(f: Fields)
      ensures argVal.None? && aArgCase.None? && aOpCase.None? && opDefault.None? && mapJump.None?
      ensures nArg == f.nArg && anArgCase == Some(f.args) && aofCase == Some(f.offsets) && ofDefault == f.ofDefault
    {
      argVal, aArgCase, aOpCase, opDefault := None, None, None, None;
      nArg, anArgCase, aofCase, ofDefault := f.nArg, Some(f.args), Some(f.offsets), f.ofDefault;
      mapJump := None;
    }

    /**
     * `resolveAddress`: only while the offsets are not known yet, fill each
     * case offset and the default offset from where the code places the
     * destinations (`offsetOf` stands for `Op.resolveAddress(code, iPC, op)`).
     */
    method ResolveAddress(offsetOf: Option<nat> -> int)
      modifies this`aofCase, this`ofDefault
      ensures old(aOpCase.Some? && aofCase.None?) ==>
                aofCase == Some(CaseOffsets(aOpCase.value, offsetOf))
                && ofDefault == offsetOf(opDefault)
      ensures !old(aOpCase.Some? && aofCase.None?) ==> aofCase == old(aofCase) && ofDefault == old(ofDefault)
    {
      if aOpCase.Some? && aofCase.None? {
        var ops := aOpCase.value;
        var offs := [];
        var i := 0;
        while i < |ops|
          invariant 0 <= i <= |ops| && |offs| == i
          invariant forall k :: 0 <= k < i ==> offs[k] == offsetOf(Some(ops[k]))
        {
          offs := offs + [offsetOf(Some(ops[i]))];
          i := i + 1;
        }
        assert offs == CaseOffsets(ops, offsetOf);
        aofCase := Some(offs);
        ofDefault := offsetOf(opDefault);
      }
    }

    /**
     * `ensureJumpMap`: on first use, map each case constant (`constHandle`
     * stands for `frame.getConstHandle`) to what `JumpMap` says (its case
     * offset as written, its case number corrected), asserting that every
     * case constant is immutable; afterwards answer the cached map.  An op
     * without encoded case arguments fails on the null table.
     */
    method EnsureJumpMap(constHandle: int -> Handle, v: Variant) returns (r: Result<map<Handle, int>>)
      modifies this`mapJump
      ensures old(mapJump).Some? ==> r == Ok(old(mapJump).value) && mapJump == old(mapJump)
      ensures old(mapJump).None? && anArgCase.None? ==> r == Err(NullPointer) && mapJump.None?
      ensures old(mapJump).None? && anArgCase.Some? ==>
                r == JumpMap(CaseHandles(anArgCase.value, constHandle), aofCase, v) &&
                mapJump == (if r.Ok? then Some(r.value) else None)
    {
      if mapJump.Some? {
        return Ok(mapJump.value);
      }
      if anArgCase.None? {
        return Err(NullPointer);
      }
      var args := anArgCase.value;
      ghost var hs := CaseHandles(args, constHandle);
      var m := map[];
      var i := 0;
      while i < |args|
        invariant 0 <= i <= |args|
        invariant JumpMap(hs, aofCase, v) == Checked(hs, aofCase, v, i, m)
      {
        var hCase := constHandle(args[i]);
        assert hs[i] == hCase;
        if hCase.Obj? && hCase.mutable {
          return Err(IllegalState);
        }
        if v == Corrected {
          m := m[hCase := i];
        } else if aofCase.None? {
          return Err(NullPointer);
        } else if i >= |aofCase.value| {
          return Err(OutOfBounds);
        } else {
          m := m[hCase := aofCase.value[i]];
        }
        i := i + 1;
      }
      mapJump := Some(m);
      r := Ok(m);
    }

    /**
     * `complete`: look the value up in the jump map; no entry means the
     * default offset, an entry is an index into the case offsets.
     */
    method Complete(constHandle: int -> Handle, iPC: int, h: Handle, v: Variant) returns (r: Result<int>)
      modifies this`mapJump
      ensures old(mapJump).Some? ==> mapJump == old(mapJump)
      ensures old(mapJump).None? && anArgCase.Some? ==>
                var jm := JumpMap(CaseHandles(anArgCase.value, constHandle), aofCase, v);
                mapJump == (if jm.Ok? then Some(jm.value) else None) && (jm.Err? ==> r == Err(jm.fault))
      ensures old(mapJump).None? && anArgCase.None? ==> mapJump.None? && r == Err(NullPointer)
      ensures mapJump.Some? ==> r == Lookup(mapJump.value, aofCase, ofDefault, iPC, h)
    {
      var m := EnsureJumpMap(constHandle, v);
      if m.Err? {
        return Err(m.fault);
      }
      if h !in m.value {
        return Ok(iPC + ofDefault);
      }
      if aofCase.None? {
        return Err(NullPointer);
      }
      var index := m.value[h];
      if 0 <= index < |aofCase.value| {
        r := Ok(iPC + aofCase.value[index]);
      } else {
        r := Err(OutOfBounds);
      }
    }
  }
}
