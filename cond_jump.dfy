/**
 * The base of the conditional jump ops (JMP_TRUE, JMP_EQ, …): the operand
 * fields, the relative jump offset and how it is resolved, the field order
 * of the op's binary form, and the dispatch of `process` into a unary or a
 * binary completion.
 */
module CondJump {
  import opened Base
  import opened Protocol

  /** The completion an op hands over to, with the operand values it gets. */
  datatype Completion =
    | Unary(iPC: int, value: Handle)
    | Binary(iPC: int, cls: nat, value1: Handle, value2: Handle)

  /**
   * An operand as the frame reports it: the register read, and the class of
   * the value (for a property operand, the class of the property's type).
   */
  datatype Operand = Operand(fetch: Fetch, cls: nat)

  /** The op fields a reader recovers from the binary form; `rest` is what follows. */
  datatype Fields = Fields(nArg: int, nArg2: int, ofJmp: int, rest: seq<int>)

  // ----- offsets ---------------------------------------------------------------------------

  /**
   * The new jump offset `resolveAddress` computes, from the destination op (if
   * any), the current offset, the destination's address in the code and the
   * op's own address.
   */
  function ResolvedOffset(hasDest: bool, ofJmp: int, target: int, iPC: int): (r: Result<int>)
    ensures !hasDest || ofJmp != 0 ==> r == Ok(ofJmp)
    ensures hasDest && ofJmp == 0 && target < 0 ==> r == Err(IllegalState)
    ensures hasDest && ofJmp == 0 && target >= 0 ==>
              r == (if target == iPC then Err(IllegalState) else Ok(target - iPC))
    ensures r.Ok? ==> (r.value == ofJmp || iPC + r.value == target)
  {
    if hasDest && ofJmp == 0 then
      if target < 0 then Err(IllegalState)
      else if target - iPC == 0 then Err(IllegalState)
      else Ok(target - iPC)
    else Ok(ofJmp)
  }

  /** Resolving is idempotent: a resolved offset is never recomputed. */
  lemma ResolveIdempotent(hasDest: bool, ofJmp: int, target: int, iPC: int)
    requires ResolvedOffset(hasDest, ofJmp, target, iPC).Ok?
    ensures var j := ResolvedOffset(hasDest, ofJmp, target, iPC).value;
            ResolvedOffset(hasDest, j, target, iPC) == Ok(j)
  {
  }

  // ----- binary form -----------------------------------------------------------------------

  /**
   * The packed ints the deserialization constructor reads after the op code:
   * the argument, the second argument for a binary op, then the offset.
   * `None` is running out of input.
   */
  function Decode(binary: bool, s: seq<int>): (r: Option<Fields>)
    ensures r.Some? ==> |r.value.rest| == |s| - (if binary then 3 else 2)
    ensures r.Some? ==> r.value.nArg == s[0] && r.value.ofJmp == s[if binary then 2 else 1]
    ensures r.None? <==> |s| < (if binary then 3 else 2)
  {
    if binary then
      if |s| < 3 then None else Some(Fields(s[0], s[1], s[2], s[3..]))
    else
      if |s| < 2 then None else Some(Fields(s[0], 0, s[1], s[2..]))
  }

  /**
   * What `write` emits as written: op code, argument, offset, for unary and
   * binary ops alike, so the reader of a binary op runs out of input on it.
   */
  function EmittedAsWritten(opcode: int, binary: bool, nArg: int, nArg2: int, ofJmp: int): (s: seq<int>)
    ensures |s| == 3 && s[0] == opcode
    ensures binary ==> Decode(true, s[1..]) == None
    ensures !binary ==> Decode(false, s[1..]) == Some(Fields(nArg, 0, ofJmp, []))
  {
    [opcode, nArg, ofJmp]
  }

  /** The intended binary form: the second argument is written between the argument and the offset. */
  function Emitted(opcode: int, binary: bool, nArg: int, nArg2: int, ofJmp: int): (s: seq<int>)
    ensures |s| == if binary then 4 else 3
    ensures !binary ==> s == EmittedAsWritten(opcode, binary, nArg, nArg2, ofJmp)
  {
    [opcode, nArg] + (if binary then [nArg2] else []) + [ofJmp]
  }

  /** For unary ops the writer and the reader agree on the field order. */
  lemma UnaryRoundTrip(opcode: int, nArg: int, nArg2: int, ofJmp: int, rest: seq<int>)
    ensures Decode(false, EmittedAsWritten(opcode, false, nArg, nArg2, ofJmp)[1..] + rest)
            == Some(Fields(nArg, 0, ofJmp, rest))
  {
    assert EmittedAsWritten(opcode, false, nArg, nArg2, ofJmp)[1..] + rest == [nArg, ofJmp] + rest;
  }

  /**
   * As written, a binary op does not survive the round trip: the reader takes
   * the offset for the second argument and the next int for the offset.
   */
  lemma BinaryAsWrittenMisreads(opcode: int, nArg: int, nArg2: int, ofJmp: int, next: int, rest: seq<int>)
    ensures Decode(true, EmittedAsWritten(opcode, true, nArg, nArg2, ofJmp)[1..] + [next] + rest)
            == Some(Fields(nArg, ofJmp, next, rest))
    ensures Decode(true, EmittedAsWritten(opcode, true, nArg, nArg2, ofJmp)[1..]) == None
  {
    assert EmittedAsWritten(opcode, true, nArg, nArg2, ofJmp)[1..] + [next] + rest == [nArg, ofJmp, next] + rest;
  }

  /** With the second argument written, every conditional jump survives the round trip. */
  lemma RoundTrip(opcode: int, binary: bool, nArg: int, nArg2: int, ofJmp: int, rest: seq<int>)
    ensures Decode(binary, Emitted(opcode, binary, nArg, nArg2, ofJmp)[1..] + rest)
            == Some(Fields(nArg, if binary then nArg2 else 0, ofJmp, rest))
  {
    if binary {
      assert Emitted(opcode, binary, nArg, nArg2, ofJmp)[1..] + rest == [nArg, nArg2, ofJmp] + rest;
    } else {
      assert Emitted(opcode, binary, nArg, nArg2, ofJmp)[1..] + rest == [nArg, ofJmp] + rest;
    }
  }

  // ----- process ---------------------------------------------------------------------------

  /** `processUnaryOp`: test the operand, resolving a property operand first. */
  function ProcessUnary(arg: Fetch, iPC: int): (r: OpResult<Completion>)
    ensures arg.Unavailable? <==> r == Code(Repeat)
    ensures arg.Thrown? ==> r == Raise(arg.exc)
    ensures r.Raise? ==> arg.Thrown?
    ensures r.Resolve? <==> arg.Got? && IsProperty(arg.h)
    ensures r.Resolve? ==> r.args == [arg.h] && r.resume == Unary(iPC, arg.h)
    ensures r.Complete? <==> arg.Got? && !IsProperty(arg.h)
    ensures r.Complete? ==> r.step == Unary(iPC, arg.h)
  {
    match arg
    case Unavailable => Code(Repeat)
    case Thrown(e) => Raise(e)
    case Got(h) => if IsProperty(h) then Resolve([h], Unary(iPC, h)) else Complete(Unary(iPC, h))
  }

  /**
   * `processBinaryOp`: both operands are read (the first failing read wins),
   * either one missing repeats the op, operands of different classes are an
   * error, and if either is a property both are resolved first.
   */
  function ProcessBinary(a1: Operand, a2: Operand, iPC: int): (r: OpResult<Completion>)
    ensures a1.fetch.Thrown? ==> r == Raise(a1.fetch.exc)
    ensures !a1.fetch.Thrown? && a2.fetch.Thrown? ==> r == Raise(a2.fetch.exc)
    ensures !a1.fetch.Thrown? && !a2.fetch.Thrown? ==>
              ((a1.fetch.Unavailable? || a2.fetch.Unavailable?) <==> r == Code(Repeat))
    ensures a1.fetch.Got? && a2.fetch.Got? && a1.cls != a2.cls ==> r == Failed(IllegalState)
    ensures r.Resolve? <==> a1.fetch.Got? && a2.fetch.Got? && a1.cls == a2.cls
                            && (IsProperty(a1.fetch.h) || IsProperty(a2.fetch.h))
    ensures r.Resolve? ==> r.args == [a1.fetch.h, a2.fetch.h]
                           && r.resume == Binary(iPC, a1.cls, a1.fetch.h, a2.fetch.h)
    ensures r.Complete? ==> r.step == Binary(iPC, a1.cls, a1.fetch.h, a2.fetch.h)
  {
    if a1.fetch.Thrown? then Raise(a1.fetch.exc)
    else if a2.fetch.Thrown? then Raise(a2.fetch.exc)
    else if a1.fetch.Unavailable? || a2.fetch.Unavailable? then Code(Repeat)
    else if a1.cls != a2.cls then Failed(IllegalState)
    else
      var step := Binary(iPC, a1.cls, a1.fetch.h, a2.fetch.h);
      if IsProperty(a1.fetch.h) || IsProperty(a2.fetch.h) then Resolve([a1.fetch.h, a2.fetch.h], step)
      else Complete(step)
  }

  /**
   * `process`: a unary op looks at its one operand only and never fails; a
   * binary op can fail only on operands of different classes; a completion
   * or a continuation has the op's arity and its address, and an exception
   * raised is one a read threw.
   */
  function Process(binary: bool, a1: Operand, a2: Operand, iPC: int): (r: OpResult<Completion>)
    ensures r.Complete? ==> (r.step.Binary? <==> binary) && r.step.iPC == iPC
    ensures r.Resolve? ==> (r.resume.Binary? <==> binary) && r.resume.iPC == iPC &&
                           |r.args| == (if binary then 2 else 1)
    ensures r.Failed? ==> binary && r.fault == IllegalState && a1.cls != a2.cls
    ensures r.Raise? ==> (a1.fetch.Thrown? && r.exc == a1.fetch.exc) ||
                         (binary && a2.fetch.Thrown? && r.exc == a2.fetch.exc)
    ensures r.Code? ==> r.ctl == Repeat && (a1.fetch.Unavailable? || (binary && a2.fetch.Unavailable?))
  {
    if binary then ProcessBinary(a1, a2, iPC) else ProcessUnary(a1.fetch, iPC)
  }

  /** A unary op never looks at a second operand. */
  lemma UnaryIgnoresSecond(a1: Operand, a2: Operand, b2: Operand, iPC: int)
    ensures Process(false, a1, a2, iPC) == Process(false, a1, b2, iPC) == ProcessUnary(a1.fetch, iPC)
  {
  }

  /** The continuation a deferred read installs: the completion with the resolved values. */
  function Resume(k: Completion, resolved: seq<Handle>): Completion
  {
    match k
    case Unary(iPC, _) => if |resolved| >= 1 then Unary(iPC, resolved[0]) else k
    case Binary(iPC, cls, _, _) => if |resolved| >= 2 then Binary(iPC, cls, resolved[0], resolved[1]) else k
  }

  /**
   * The deferred path ends where the direct path would have gone: once the
   * property is resolved to a plain value, the completion is the one a direct
   * read of that value hands over to.
   */
  lemma DeferredUnaryAgrees(h: Handle, resolved: Handle, iPC: int)
    requires IsProperty(h) && !IsProperty(resolved)
    ensures var r := ProcessUnary(Got(h), iPC);
            r.Resolve? && ProcessUnary(Got(resolved), iPC) == Complete(Resume(r.resume, [resolved]))
  {
  }

  /** The same for binary ops: resolving both operands leads to the direct completion. */
  lemma DeferredBinaryAgrees(a1: Operand, a2: Operand, v1: Handle, v2: Handle, iPC: int)
    requires ProcessBinary(a1, a2, iPC).Resolve?
    requires !IsProperty(v1) && !IsProperty(v2)
    ensures var r := ProcessBinary(a1, a2, iPC);
            ProcessBinary(Operand(Got(v1), a1.cls), Operand(Got(v2), a2.cls), iPC)
            == Complete(Resume(r.resume, [v1, v2]))
  {
  }

  // ----- the op object ---------------------------------------------------------------------

  /** An OpCondJump instance: its operands before and after encoding, and its jump. */
  class CondJumpOp {
    const binary: bool        // isBinaryOp()
    const argVal: Option<nat>   // m_argVal, the operand before encoding
    const argVal2: Option<nat>  // m_argVal2
    const opDest: Option<nat>   // m_opDest, the op to jump to, by identity
    var nArg: int
    var nArg2: int
    var ofJmp: int

    /** The unary and binary constructors: operands and destination, no offset yet. */
    constructor (binary: bool, arg: nat, arg2: Option<nat>, dest: nat)
      ensures this.binary == binary && argVal == Some(arg) && argVal2 == arg2 && opDest == Some(dest)
      ensures nArg == 0 && nArg2 == 0 && ofJmp == 0
    {
      this.binary := binary;
      argVal := Some(arg);
      argVal2 := arg2;
      opDest := Some(dest);
      nArg, nArg2, ofJmp := 0, 0, 0;
    }

    /** The deserialization constructor, given the fields `Decode` read. */
    constructor Read(binary: bool, f: Fields)
      ensures this.binary == binary && argVal.None? && argVal2.None? && opDest.None?
      ensures nArg == f.nArg && nArg2 == f.nArg2 && ofJmp == f.ofJmp
    {
      this.binary := binary;
      argVal, argVal2, opDest := None, None, None;
      nArg, nArg2, ofJmp := f.nArg, f.nArg2, f.ofJmp;
    }

    /**
     * `resolveAddress`: compute the relative offset to the destination, given
     * where the code places it (`addressOf`).
     */
    method ResolveAddress(addressOf: nat -> int, iPC: int) returns (r: Result<int>)
      modifies this`ofJmp
      ensures r == ResolvedOffset(opDest.Some?, old(ofJmp), if opDest.Some? then addressOf(opDest.value) else -1, iPC)
      ensures ofJmp == if r.Ok? then r.value else old(ofJmp)
    {
      if opDest.Some? && ofJmp == 0 {
        var iPCThat := addressOf(opDest.value);
        if iPCThat < 0 {
          return Err(IllegalState);
        }
        ofJmp := iPCThat - iPC;
        if ofJmp == 0 {
          return Err(IllegalState);
        }
      }
      r := Ok(ofJmp);
    }

    /**
     * `write`: encode the operands (when the op was built from arguments),
     * then emit op code, argument(s) and offset: as written without the
     * second argument, corrected with it.
     */
    method Write(opcode: int, encode: Option<nat> -> int, v: Variant) returns (out: seq<int>)
      modifies this`nArg, this`nArg2
      ensures argVal.Some? ==> nArg == encode(argVal) && nArg2 == (if binary then encode(argVal2) else old(nArg2))
      ensures argVal.None? ==> nArg == old(nArg) && nArg2 == old(nArg2)
      ensures out == if v == AsWritten then EmittedAsWritten(opcode, binary, nArg, nArg2, ofJmp)
                     else Emitted(opcode, binary, nArg, nArg2, ofJmp)
    {
      if argVal.Some? {
        nArg := encode(argVal);
        if binary {
          nArg2 := encode(argVal2);
        }
      }
      if v == AsWritten {
        out := EmittedAsWritten(opcode, binary, nArg, nArg2, ofJmp);
      } else {
        out := Emitted(opcode, binary, nArg, nArg2, ofJmp);
      }
    }
  }
}
