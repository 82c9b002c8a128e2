/**
 * The base of the in-place ops (increment, decrement, compound assignment):
 * the target is either a register or, for a negative index, a property of
 * the current object; an "assign" op also has a result register.
 */
module InPlace {
  import opened Base
  import opened Protocol

  /** Ops are assigning unless a subclass says otherwise. */
  const DEFAULT_IS_ASSIGN: bool := true

  /** The completion the op hands over to. */
  datatype Completion = WithRegister(target: Handle) | WithProperty(name: string)

  /** A constant of the method's pool, as `frame.getConstant` gives it. */
  datatype PoolConstant = PropertyConstant(name: string) | OtherConstant

  /**
   * What one `process` call does: whether it asked the frame to copy the
   * target into a new variable (`introduceVarCopy`), and its answer.
   */
  datatype Outcome = Outcome(copied: bool, result: OpResult<Completion>)

  /**
   * `process`, given what the frame reports: the target register's value
   * (read only for a register target), whether the result register is the
   * next free one, and the constant at the (negative) target index.  A
   * register target that is missing or throws changes nothing; otherwise an
   * assigning op whose result is the next register first copies the target,
   * and then the op completes on the register's value or on the property the
   * constant names, and any other constant fails the cast.
   */
  function Process(assign: bool, nTarget: int, target: Fetch, retIsNext: bool, constant: PoolConstant): (o: Outcome)
    ensures o.result == Code(Repeat) <==> nTarget >= 0 && target.Unavailable?
    ensures o.result.Raise? <==> nTarget >= 0 && target.Thrown?
    ensures o.result.Raise? ==> o.result.exc == target.exc
    ensures o.result.Complete? && o.result.step.WithRegister? <==> nTarget >= 0 && target.Got?
    ensures o.result.Complete? && o.result.step.WithRegister? ==> o.result.step.target == target.h
    ensures o.result.Complete? && o.result.step.WithProperty? <==> nTarget < 0 && constant.PropertyConstant?
    ensures o.result.Complete? && o.result.step.WithProperty? ==> o.result.step.name == constant.name
    ensures o.result.Failed? <==> nTarget < 0 && !constant.PropertyConstant?
    ensures o.result.Failed? ==> o.result.fault == ClassCast
    ensures o.result.Code? || o.result.Raise? || o.result.Complete? || o.result.Failed?
    ensures o.copied <==> assign && retIsNext && (nTarget < 0 || target.Got?)
  {
    if nTarget >= 0 then
      match target
      case Unavailable => Outcome(false, Code(Repeat))
      case Thrown(e) => Outcome(false, Raise(e))
      case Got(h) => Outcome(assign && retIsNext, Complete(WithRegister(h)))
    else
      var copied := assign && retIsNext;
      if constant.PropertyConstant? then Outcome(copied, Complete(WithProperty(constant.name)))
      else Outcome(copied, Failed(ClassCast))
  }

  /** A repeat never has a side effect, and a copy is made only for an assigning op. */
  lemma RepeatIsSideEffectFree(assign: bool, nTarget: int, target: Fetch, retIsNext: bool, constant: PoolConstant)
    ensures var o := Process(assign, nTarget, target, retIsNext, constant);
            (o.result == Code(Repeat) ==> !o.copied && nTarget >= 0) && (o.copied ==> assign && retIsNext)
  {
  }

  /** `write`: op code, target, and the result register only for an assigning op. */
  function Emitted(opcode: int, assign: bool, nTarget: int, nRetValue: int): seq<int>
  {
    [opcode, nTarget] + (if assign then [nRetValue] else [])
  }

  /** The deserialization constructor: target, then the result register for an assigning op. */
  function Decode(assign: bool, s: seq<int>): (r: Option<(int, int, seq<int>)>)
    ensures r.Some? <==> |s| >= (if assign then 2 else 1)
  {
    if assign then (if |s| < 2 then None else Some((s[0], s[1], s[2..])))
    else (if |s| < 1 then None else Some((s[0], 0, s[1..])))
  }

  /** The reader consumes exactly what the writer emits after the op code, assigning or not. */
  lemma RoundTrip(opcode: int, assign: bool, nTarget: int, nRetValue: int, rest: seq<int>)
    ensures Decode(assign, Emitted(opcode, assign, nTarget, nRetValue)[1..] + rest)
            == Some((nTarget, if assign then nRetValue else 0, rest))
  {
    if assign {
      assert Emitted(opcode, assign, nTarget, nRetValue)[1..] + rest == [nTarget, nRetValue] + rest;
    } else {
      assert Emitted(opcode, assign, nTarget, nRetValue)[1..] + rest == [nTarget] + rest;
    }
  }

  /** The compiler's register scope as `simulate` sees it: how many variables it has allocated. */
  class Scope {
    var varCount: nat
    constructor ()
      ensures varCount == 0
    {
      varCount := 0;
    }

    /** `allocVar`. */
    method AllocVar()
      modifies this
      ensures varCount == old(varCount) + 1
    {
      varCount := varCount + 1;
    }
  }

  /** An in-place op instance: its arguments before encoding and its register indices. */
  class InPlaceOp {
    const assign: bool               // isAssignOp()
    const argTarget: Option<nat>     // m_argTarget, before encoding
    const argReturn: Option<nat>     // m_argReturn
    var nTarget: int
    var nRetValue: int

    /**
     * The constructors from arguments: a target alone for a non-assigning op,
     * a target and a result for an assigning one (the source asserts which);
     * nothing is encoded yet.
     */
    constructor (assign: bool, target: nat, ret: Option<nat>)
      requires assign <==> ret.Some?
      ensures this.assign == assign && argTarget == Some(target) && argReturn == ret
      ensures nTarget == 0 && nRetValue == 0
    {
      this.assign := assign;
      argTarget, argReturn := Some(target), ret;
      nTarget, nRetValue := 0, 0;
    }

    /** The deserialization constructor, given what `Decode` read. */
    constructor Read(assign: bool, nTarget: int, nRetValue: int)
      ensures this.assign == assign && argTarget.None? && argReturn.None?
      ensures this.nTarget == nTarget && this.nRetValue == nRetValue
    {
      this.assign := assign;
      argTarget, argReturn := None, None;
      this.nTarget, this.nRetValue := nTarget, nRetValue;
    }

    /** `write`: encode the arguments when the op was built from them, then emit. */
    method Write(opcode: int, encode: Option<nat> -> int) returns (out: seq<int>)
      modifies this`nTarget, this`nRetValue
      ensures argTarget.Some? ==> nTarget == encode(argTarget) &&
                                  nRetValue == (if assign then encode(argReturn) else old(nRetValue))
      ensures argTarget.None? ==> nTarget == old(nTarget) && nRetValue == old(nRetValue)
      ensures out == Emitted(opcode, assign, nTarget, nRetValue)
    {
      if argTarget.Some? {
        nTarget := encode(argTarget);
        if assign {
          nRetValue := encode(argReturn);
        }
      }
      out := Emitted(opcode, assign, nTarget, nRetValue);
    }

    /**
     * `simulate`: an assigning op whose result goes to the next register
     * allocates exactly one variable; any other op allocates none.
     */
    method Simulate(scope: Scope, retIsNext: bool)
      modifies scope
      ensures scope.varCount == old(scope.varCount) + (if assign && retIsNext then 1 else 0)
    {
      if assign && retIsNext {
        scope.AllocVar();
      }
    }
  }
}
