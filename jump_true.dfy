/**
 * JMP_TRUE: jump by the op's offset when a Boolean operand is true, go on
 * to the next op when it is false.
 */
module JumpTrue {
  import opened Base
  import opened Protocol

  /** The op's fields: the operand register and the relative jump offset. */
  datatype JumpTrueOp = JumpTrueOp(nArg: int, ofJmp: int)

  /** The continuation installed for a property operand: the branch to take once it is known. */
  datatype Branch = Branch(iPC: int, ofJmp: int)

  /**
   * The branch decision for a value: only a Boolean is decided, and it goes
   * to one of the two successors, the jump target exactly when it is true
   * (unless the two coincide); anything else fails the cast.
   */
  function Decide(h: Handle, iPC: int, ofJmp: int): (r: OpResult<Branch>)
    ensures r.Code? <==> h.Bool?
    ensures r.Code? ==> r.ctl.Pc? && (r.ctl.addr == iPC + ofJmp || r.ctl.addr == iPC + 1)
    ensures r.Code? && ofJmp != 1 ==> (r.ctl.addr == iPC + ofJmp <==> h.value)
    ensures !r.Code? ==> r == Failed(ClassCast)
  {
    if h.Bool? then Code(Pc(if h.value then iPC + ofJmp else iPC + 1)) else Failed(ClassCast)
  }

  /** The deprecated constructor `JumpTrue(nValue, nRelAddr)`. */
  function Make(nValue: int, nRelAddr: int): (op: JumpTrueOp)
    ensures op.nArg == nValue && op.ofJmp == nRelAddr
  {
    JumpTrueOp(nValue, nRelAddr)
  }

  /** `process`: repeat while the operand is missing, resolve a property first, raise a wrapped exception. */
  function Process(op: JumpTrueOp, arg: Fetch, iPC: int): (r: OpResult<Branch>)
    ensures arg.Unavailable? <==> r == Code(Repeat)
    ensures arg.Thrown? ==> r == Raise(arg.exc)
    ensures r.Raise? ==> arg.Thrown?
    ensures r.Resolve? <==> arg.Got? && IsProperty(arg.h)
    ensures r.Resolve? ==> r.args == [arg.h] && r.resume == Branch(iPC, op.ofJmp)
    ensures arg.Got? && !IsProperty(arg.h) ==> r == Decide(arg.h, iPC, op.ofJmp)
  {
    match arg
    case Unavailable => Code(Repeat)
    case Thrown(e) => Raise(e)
    case Got(h) => if IsProperty(h) then Resolve([h], Branch(iPC, op.ofJmp)) else Decide(h, iPC, op.ofJmp)
  }

  /** The continuation: the same decision, applied to the resolved value. */
  function Resume(k: Branch, resolved: seq<Handle>): OpResult<Branch>
    requires |resolved| == 1
  {
    Decide(resolved[0], k.iPC, k.ofJmp)
  }

  /**
   * Every address JMP_TRUE answers is either the next op (for false) or the
   * jump target (for true), by the direct or the deferred path.
   */
  lemma Targets(op: JumpTrueOp, arg: Fetch, iPC: int, resolved: Handle)
    ensures var r := Process(op, arg, iPC);
            r.Code? && r.ctl.Pc? ==>
              arg.Got? && arg.h.Bool? &&
              r.ctl.addr == (if arg.h.value then iPC + op.ofJmp else iPC + 1)
    ensures var r := Process(op, arg, iPC);
            r.Resolve? ==> (var k := Resume(r.resume, [resolved]);
                            k.Code? ==> (resolved.Bool? &&
                              k.ctl == Pc(if resolved.value then iPC + op.ofJmp else iPC + 1)))
  {
  }

  /** The op the deprecated constructor builds tests register `nValue` and jumps by `nRelAddr` on true. */
  lemma MadeOpJumps(nValue: int, nRelAddr: int, arg: Fetch, iPC: int)
    requires arg.Got? && arg.h.Bool?
    ensures Make(nValue, nRelAddr).nArg == nValue
    ensures Process(Make(nValue, nRelAddr), arg, iPC) ==
            Code(Pc(if arg.h.value then iPC + nRelAddr else iPC + 1))
  {
  }

  /** A property operand, once resolved, is decided exactly as a direct operand would be. */
  lemma DeferredAgrees(op: JumpTrueOp, h: Handle, resolved: Handle, iPC: int)
    requires IsProperty(h) && !IsProperty(resolved)
    ensures var r := Process(op, Got(h), iPC);
            r.Resolve? && Resume(r.resume, [resolved]) == Process(op, Got(resolved), iPC)
  {
  }
}
