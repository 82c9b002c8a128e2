/**
 * The op-level control protocol shared by the interpreter loop and the ops:
 * what `Op.process` may answer, what a register read may give, and the
 * object handles the ops test.
 */
module Protocol {
  import opened Base

  /**
   * The answer of `Op.process`: the address of the next op to run, or one of
   * the interpreter's control codes (R_NEXT, R_CALL, R_RETURN, …).  The Java
   * code packs both into one `int`; here the codes are constructors of their
   * own, and an address that is negative is one the interpreter rejects.
   */
  datatype Ctl =
    | Pc(addr: int)
    | Next
    | Call
    | Return
    | ReturnException
    | Exception
    | Block
    | BlockReturn
    | Repeat
    | Yield

  /** An exception handle, by identity. */
  type ExcId = nat

  /**
   * An object handle as the ops see it.  `Null` is the `Null` singleton of
   * `Nullable`; the deferred handles are placeholders for values that still
   * need computing (a property of the current service, a singleton not yet
   * initialised, a call in flight or an exception).  `Default` is the marker
   * of an argument that takes its parameter's default value.
   */
  datatype Handle =
    | Null
    | Bool(value: bool)
    | Int(n: int)
    | Obj(id: nat, cls: nat, mutable: bool, service: bool)
    | DeferredProperty(prop: nat)
    | DeferredSingleton(singleton: nat)
    | DeferredCall(callee: nat)
    | DeferredException(exc: ExcId)
    | Default

  /** `ObjectHandle.isMutable`: only objects can be mutable. */
  predicate Mutable(h: Handle) { h.Obj? && h.mutable }

  /** `ObjectHandle.isService`: the handle of a service. */
  predicate IsService(h: Handle) { h.Obj? && h.service }

  /** `Op.isProperty`: the handle stands for a property that must be fetched first. */
  predicate IsProperty(h: Handle) { h.DeferredProperty? }

  /** `Op.isDeferred`: the handle is any kind of placeholder. */
  predicate IsDeferred(h: Handle) {
    h.DeferredProperty? || h.DeferredSingleton? || h.DeferredCall? || h.DeferredException?
  }

  /**
   * What `Frame.getArgument` gives: `Unavailable` for a register whose value is
   * not there yet (Java `null`), `Thrown` when the read throws a wrapped
   * exception, or the handle.
   */
  datatype Fetch = Unavailable | Thrown(exc: ExcId) | Got(h: Handle)

  /**
   * What an op's `process` does, seen from the op: answer a control code,
   * raise an exception through `frame.raiseException` (which answers
   * R_EXCEPTION), resolve deferred operands first and then run the
   * continuation `resume`, hand over to the op's completion `step`, or throw.
   */
  datatype OpResult<K> =
    | Code(ctl: Ctl)
    | Raise(exc: ExcId)
    | Resolve(args: seq<Handle>, resume: K)
    | Complete(step: K)
    | Failed(fault: Fault)
}
