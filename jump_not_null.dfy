/**
 * JMP_NNULL: go on to the next op when the value is the `Null` singleton,
 * otherwise jump by the op's relative address.
 */
module JumpNotNull {
  import opened Base
  import opened Protocol

  /** The op's fields: the value register and the relative address. */
  datatype JumpNotNullOp = JumpNotNullOp(nValue: int, nRelAddr: int)

  /** `process`: only the `Null` singleton falls through; a wrapped exception is raised. */
  function Process(op: JumpNotNullOp, arg: Fetch, iPC: int): (r: Ctl)
    ensures arg.Thrown? ==> r == Exception
    ensures arg.Got? && arg.h == Null ==> r == Pc(iPC + 1)
    ensures !arg.Thrown? && !(arg.Got? && arg.h == Null) ==> r == Pc(iPC + op.nRelAddr)
  {
    match arg
    case Thrown(_) => Exception
    case Unavailable => Pc(iPC + op.nRelAddr)
    case Got(h) => if h == Null then Pc(iPC + 1) else Pc(iPC + op.nRelAddr)
  }

  /** The exception `process` raises, if any: the wrapped one. */
  function Raised(arg: Fetch): (e: Option<ExcId>)
    ensures e.Some? <==> arg.Thrown?
  {
    if arg.Thrown? then Some(arg.exc) else None
  }

  /** There is no repeat path: the op answers an address or raises, whatever the register holds. */
  lemma NeverRepeats(op: JumpNotNullOp, arg: Fetch, iPC: int)
    ensures Process(op, arg, iPC).Pc? || (Process(op, arg, iPC) == Exception && Raised(arg).Some?)
    ensures Process(op, arg, iPC).Pc? ==>
              Process(op, arg, iPC).addr in {iPC + 1, iPC + op.nRelAddr}
  {
  }

  /** `write`: op code, value, relative address. */
  function Emitted(opcode: int, op: JumpNotNullOp): seq<int>
  {
    [opcode, op.nValue, op.nRelAddr]
  }

  /** The deserialization constructor: value, then relative address; `None` when input runs out. */
  function Decode(s: seq<int>): (r: Option<(JumpNotNullOp, seq<int>)>)
    ensures r.Some? <==> |s| >= 2
  {
    if |s| < 2 then None else Some((JumpNotNullOp(s[0], s[1]), s[2..]))
  }

  /** The reader consumes exactly what the writer emits after the op code, in the same order. */
  lemma RoundTrip(opcode: int, op: JumpNotNullOp, rest: seq<int>)
    ensures Decode(Emitted(opcode, op)[1..] + rest) == Some((op, rest))
  {
    assert Emitted(opcode, op)[1..] + rest == [op.nValue, op.nRelAddr] + rest;
  }
}
