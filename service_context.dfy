/**
 * The cooperative scheduler of a service (actor): how `ServiceContext` picks
 * the next frame to run, files a fiber away by its status, runs a frame chain
 * under a budget of ten ops, and wraps requests and responses into mailbox
 * envelopes.
 *
 * Frames are modelled as values: a frame links to its caller (`prev`) and to
 * the callee it is about to run (`next`), so an update the Java code makes to
 * a shared caller object is written here as an update of the caller held in
 * the callee's `prev`.  Fibers and futures, which several frames and responses
 * share, are objects.  What the unseen classes (`Op`, `Frame`, `Fiber`,
 * `FiberQueue`) decide is given to the model as functions (`Env`, the
 * selection and readiness parameters of `NextFiber`).
 */
module Scheduler {
  import opened Base
  import opened Protocol

  datatype FiberStatus = InitialNew | InitialAssociated | Running | Waiting | Paused | Yielded | Terminated

  /** The reentrancy policy of a service. */
  datatype Reentrancy = Prioritized | Open | Exclusive | Forbidden

  /** A thread of execution inside a service. */
  class Fiber {
    var status: FiberStatus
    /** `m_fResponded`: a response for this fiber has arrived since it last ran. */
    var responded: bool
    var timedOut: bool

    /** A fiber for a new message: associated with an existing thread of execution or new. */
    constructor (associated: bool)
      ensures status == (if associated then InitialAssociated else InitialNew)
      ensures !responded && !timedOut
    {
      status := if associated then InitialAssociated else InitialNew;
      responded := false;
      timedOut := false;
    }
  }

  /** What a request returns: one value (possibly unset) or all the entry frame's variables. */
  datatype Payload = One(value: Option<Handle>) | Many(values: seq<Option<Handle>>)

  datatype FutureState = Pending | Completed(payload: Payload) | FailedWith(exc: ExcId)

  /** A write-once result cell standing for a `CompletableFuture`. */
  class Future {
    var state: FutureState
    /** The service that is removed when this (construction) future fails. */
    const removes: Option<nat>

    constructor (removes: Option<nat>)
      ensures state == Pending && this.removes == removes
    {
      state := Pending;
      this.removes := removes;
    }
  }

  /** What a message asks the service to do; the function and arguments are in the entry op. */
  datatype Request =
    | Construct(future: Future)
    | Invoke1(cReturns: nat, future1: Option<Future>)
    | InvokeN(cReturns: nat, futureN: Future)
    | PropertyOp(cReturns: nat, future1: Option<Future>)

  /** A mailbox message: the calling fiber and pc (none and -1 for a call from outside) and the request. */
  datatype Message = Message(callerFiber: Option<Fiber>, callerPc: int, request: Request)

  /** A response travelling back to the caller's service. */
  datatype Response = Response(caller: Fiber, payload: Payload, exc: Option<ExcId>, future: Future)

  /** An op of a frame: the entry op of a message's proto-frame, RETURN_0, or any other op. */
  datatype Op = Entry(msg: Message) | Return0 | Plain(id: nat)

  /** A frame continuation: the one a request installs on its proto-frame, or any other. */
  datatype Cont = Proto(msg: Message) | User(id: nat)

  datatype Frame = Frame(
    fiber: Fiber,
    ops: seq<Op>,
    pc: int,
    prev: Option<Frame>,
    next: Option<Frame>,
    cont: Option<Cont>,
    exc: Option<ExcId>,
    vars: seq<Option<Handle>>)

  /** The length of the caller chain, this frame included. */
  function Depth(f: Frame): (d: nat)
    ensures d >= 1
  {
    if f.prev.Some? then 1 + Depth(f.prev.value) else 1
  }

  /**
   * What an op's `process` did to its frame: the code it answered, the
   * frame's new callee link, exception and variables, and the new exception
   * and variables of its caller (ignored when there is none).
   */
  datatype OpStep = OpStep(code: Ctl, next: Option<Frame>, exc: Option<ExcId>, vars: seq<Option<Handle>>,
                           callerExc: Option<ExcId>, callerVars: seq<Option<Handle>>)

  /** What a continuation's `proceed` answered and did to the frame it works on. */
  datatype ContStep = ContStep(code: Ctl, exc: Option<ExcId>, vars: seq<Option<Handle>>, next: Option<Frame>)

  /** `checkWaitingRegisters`: still waiting (R_BLOCK), a waited-for value failed (R_EXCEPTION), or ready. */
  datatype WaitCheck = StillWaiting | Raised(exc: ExcId) | Ready

  /** The unseen behaviour `execute` depends on. */
  datatype Env = Env(
    process: (Op, Frame, int) -> OpStep,
    proceed: (nat, Option<Frame>) -> ContStep,
    findGuard: (Frame, ExcId) -> int,
    checkWaiting: Frame -> WaitCheck,
    timeout: ExcId)

  function AfterOp(f: Frame, s: OpStep): Frame {
    f.(next := s.next, exc := s.exc, vars := s.vars,
       prev := if f.prev.Some? then Some(f.prev.value.(exc := s.callerExc, vars := s.callerVars)) else None)
  }

  function AfterCont(f: Frame, s: ContStep): (g: Frame)
    ensures g.prev == f.prev && Depth(g) == Depth(f)
  {
    f.(exc := s.exc, vars := s.vars, next := s.next)
  }

  /** Whether a request is answered: a construction always, a call or property request when it wants a value. */
  predicate Answers(req: Request) {
    req.Construct? || req.InvokeN? || req.cReturns > 0
  }

  /** The future a request is answered through, if it carries one. */
  function FutureOf(req: Request): Option<Future> {
    match req
    case Construct(fut) => Some(fut)
    case Invoke1(_, fut) => fut
    case InvokeN(_, fut) => Some(fut)
    case PropertyOp(_, fut) => fut
  }

  /**
   * The continuation a request installs on its proto-frame `f`: the responses
   * it sends and the exceptions it hands to the unhandled-exception handler.
   * A request that wants no value only reports the frame's exception.  Any
   * other sends one response to the calling fiber, through the request's
   * future, carrying the frame's exception and variable 0 (all variables for
   * several returns); it fails when the future or the calling fiber is
   * missing, or variable 0 does not exist.  It always answers R_NEXT.
   */
  function ProtoProceed(msg: Message, f: Frame): (r: Result<(seq<Response>, seq<ExcId>)>)
    ensures !Answers(msg.request) ==> r == Ok(([], if f.exc.Some? then [f.exc.value] else []))
    ensures Answers(msg.request) ==>
              (r.Ok? <==> msg.callerFiber.Some? && FutureOf(msg.request).Some? && (msg.request.InvokeN? || |f.vars| > 0))
    ensures Answers(msg.request) && r.Ok? ==>
              r.value == ([Response(msg.callerFiber.value, if msg.request.InvokeN? then Many(f.vars) else One(f.vars[0]),
                                    f.exc, FutureOf(msg.request).value)], [])
    ensures r.Err? ==> r.fault in {NullPointer, OutOfBounds}
    ensures r.Err? ==>
              (r.fault == OutOfBounds <==> !msg.request.InvokeN? && FutureOf(msg.request).Some? && |f.vars| == 0)
  {
    match msg.request
    case Construct(fut) => Respond1(msg, f, fut)
    case Invoke1(c, fut) => ProtoProceed1(msg, f, c, fut)
    case PropertyOp(c, fut) => ProtoProceed1(msg, f, c, fut)
    case InvokeN(c, fut) =>
      if msg.callerFiber.None? then Err(NullPointer)
      else Ok(([Response(msg.callerFiber.value, Many(f.vars), f.exc, fut)], []))
  }

  function ProtoProceed1(msg: Message, f: Frame, cReturns: nat, fut: Option<Future>): Result<(seq<Response>, seq<ExcId>)> {
    if cReturns == 0 then Ok(([], if f.exc.Some? then [f.exc.value] else []))
    else if fut.None? then Err(NullPointer)
    else Respond1(msg, f, fut.value)
  }

  /** `sendResponse1`: variable 0 and the exception go to the calling fiber's service. */
  function Respond1(msg: Message, f: Frame, fut: Future): Result<(seq<Response>, seq<ExcId>)> {
    if |f.vars| == 0 then Err(OutOfBounds)
    else if msg.callerFiber.None? then Err(NullPointer)
    else Ok(([Response(msg.callerFiber.value, One(f.vars[0]), f.exc, fut)], []))
  }

  /** Where unwinding an exception stops: at a frame with a guard for it, or at the proto-frame. */
  datatype Unwound = Handled(frame: Frame, guard: nat) | Unguarded(frame: Frame)

  /** The guard search of `execute`: walk the caller chain until a frame has a guard. */
  function Unwind(f: Frame, e: ExcId, findGuard: (Frame, ExcId) -> int): (u: Unwound)
    ensures Depth(u.frame) <= Depth(f)
    ensures u.Unguarded? ==> u.frame.prev.None? && forall g :: g in Chain(f) ==> findGuard(g, e) < 0
    ensures u.Handled? ==> u.frame in Chain(f) && findGuard(u.frame, e) == u.guard
    ensures u.Handled? ==> forall g :: g in Chain(f) && Depth(g) > Depth(u.frame) ==> findGuard(g, e) < 0
  {
    var g := findGuard(f, e);
    if g >= 0 then Handled(f, g)
    else if f.prev.Some? then Unwind(f.prev.value, e, findGuard)
    else Unguarded(f)
  }

  /** A frame and its callers, innermost first. */
  function Chain(f: Frame): (c: seq<Frame>)
    ensures |c| == Depth(f) && c[0] == f
    ensures forall g :: g in c ==> Depth(g) <= Depth(f)
  {
    [f] + (if f.prev.Some? then Chain(f.prev.value) else [])
  }

  /**
   * The state of `execute` between two steps.  `held` is the frame that
   * stays current while an exception is carried from it to its caller
   * (R_RETURN_EXCEPTION moves only the frame in hand); it is none while the
   * frame in hand is the current one.
   */
  datatype Mach = Mach(frame: Frame, code: Ctl, last: int, nOps: nat, status: FiberStatus,
                       outbox: seq<Response>, unhandled: seq<ExcId>, held: Option<Frame>)

  /** The frame `execute` holds as current. */
  function Current(m: Mach): Option<Frame> {
    if m.held.Some? then m.held else Some(m.frame)
  }

  /**
   * How the loop ends.  A fault carries the frame that is current when the
   * exception leaves `execute`: the frame whose step failed, or the frame
   * whose exception is being unwound (the unwinding walks the callers
   * without making them current), or none when R_CALL finds no next frame,
   * which it makes current before failing on it.
   */
  datatype Exit = Suspended(frame: Frame) | Finished | Faulted(fault: Fault, current: Option<Frame>)

  /** How `execute` ends: the exit, the fiber's status, the ops processed and what was sent. */
  datatype RunOut = RunOut(exit: Exit, status: FiberStatus, ops: nat, outbox: seq<Response>, unhandled: seq<ExcId>)

  function Stop(m: Mach, exit: Exit, status: FiberStatus): RunOut {
    RunOut(exit, status, m.nOps, m.outbox, m.unhandled)
  }

  function Rank(c: Ctl): nat {
    match c
    case Call => 0
    case Exception => 1
    case ReturnException => 1
    case _ => 2
  }

  function Second(m: Mach): nat {
    if m.code.Pc? && m.code.addr >= 0 then 0 else Depth(m.frame)
  }

  predicate Active(s: FiberStatus) { s == Running || s == Waiting }

  /**
   * The interpreter loop of `execute`, one control code at a time.  An
   * address runs the op there (after ten ops the fiber is paused at it); the
   * codes call into `next`, return to the caller through the continuation,
   * unwind an exception to the nearest guard, or suspend the fiber.
   */
  function Run(m: Mach, env: Env, v: Variant): (r: RunOut)
    requires m.nOps <= 10 && Active(m.status)
    ensures m.nOps <= r.ops <= 10
    ensures r.exit.Finished? <==> r.status == Terminated
    ensures r.exit.Suspended? ==> r.status == Paused || r.status == Waiting || r.status == Yielded
    ensures r.exit.Faulted? ==> Active(r.status)
    ensures r.status == Paused ==> r.ops == 10 && r.exit.Suspended? && r.exit.frame.pc >= 0
    ensures m.outbox <= r.outbox && m.unhandled <= r.unhandled
    decreases 10 - m.nOps, Second(m), Rank(m.code), 1
  {
    var f := m.frame;
    match m.code
    case Pc(a) => Stepped(m, a, env, v)
    case Call =>
      if f.next.None? then Stop(m, Faulted(NullPointer, None), m.status)
      else
        var caller := f.(pc := m.last + 1, next := None);
        Run(m.(frame := f.next.value.(prev := Some(caller)), code := Pc(0), held := None), env, v)
    case Return => Returned(m, env, v)
    case BlockReturn => Returned(m.(status := Waiting, code := Return), env, v)
    case ReturnException =>
      if f.prev.None? then Stop(m, Faulted(NullPointer, Current(m)), m.status)
      else Run(m.(frame := f.prev.value, code := Exception, held := Current(m)), env, v)
    case Exception => Raised(m, env, v)
    case Repeat => Stop(m, Suspended(f.(pc := m.last)), Waiting)
    case Block => Stop(m, Suspended(f.(pc := m.last + 1)), Waiting)
    case Yield => Stop(m, Suspended(f.(pc := m.last + 1)), Yielded)
    case _ => Stop(m, Faulted(IllegalState, Current(m)), m.status)
  }

  /** The op at address `a` runs (after ten ops the fiber is paused at it). */
  function Stepped(m: Mach, a: int, env: Env, v: Variant): (r: RunOut)
    requires m.nOps <= 10 && Active(m.status) && m.code == Pc(a)
    ensures m.nOps <= r.ops <= 10
    ensures r.exit.Finished? <==> r.status == Terminated
    ensures r.exit.Suspended? ==> r.status == Paused || r.status == Waiting || r.status == Yielded
    ensures r.exit.Faulted? ==> Active(r.status)
    ensures r.status == Paused ==> r.ops == 10 && r.exit.Suspended? && r.exit.frame.pc >= 0
    ensures m.outbox <= r.outbox && m.unhandled <= r.unhandled
    decreases 10 - m.nOps, Second(m), Rank(m.code), 0
  {
    var f := m.frame;
    if a < 0 then Stop(m, Faulted(IllegalState, Some(f)), m.status)
    else
      var f1 := f.(pc := a);
      if m.nOps + 1 > 10 then Stop(m, Suspended(f1), Paused)
      else if a >= |f1.ops| then Stop(m, Faulted(OutOfBounds, Some(f1)), m.status)
      else
        var s := env.process(f1.ops[a], f1, a);
        Run(m.(frame := AfterOp(f1, s), code := if s.code == Next then Pc(a + 1) else s.code,
               last := a, nOps := m.nOps + 1), env, v)
  }

  /** R_EXCEPTION: the exception is unwound to the nearest guard, or handed to the proto-frame's continuation. */
  function Raised(m: Mach, env: Env, v: Variant): (r: RunOut)
    requires m.nOps <= 10 && Active(m.status) && m.code == Exception
    ensures m.nOps <= r.ops <= 10
    ensures r.exit.Finished? <==> r.status == Terminated
    ensures r.exit.Suspended? ==> r.status == Paused || r.status == Waiting || r.status == Yielded
    ensures r.exit.Faulted? ==> Active(r.status)
    ensures r.status == Paused ==> r.ops == 10 && r.exit.Suspended? && r.exit.frame.pc >= 0
    ensures m.outbox <= r.outbox && m.unhandled <= r.unhandled
    decreases 10 - m.nOps, Second(m), Rank(m.code), 0
  {
    var f := m.frame;
    if f.exc.None? then Stop(m, Faulted(IllegalState, Current(m)), m.status)
    else
      var e := f.exc.value;
      (match Unwind(f, e, env.findGuard)
      case Handled(h, g) => Run(m.(frame := h, code := Pc(g), held := None), env, v)
      case Unguarded(p) =>
        if p.cont.None? then Stop(m, Faulted(IllegalState, Current(m)), m.status)
        else
          var p1 := p.(exc := Some(e));
          (match p1.cont.value
          case Proto(msg) =>
            (match ProtoProceed(msg, p1)
             case Err(x) => Stop(m, Faulted(x, Current(m)), m.status)
             case Ok(sent) => RunOut(Finished, Terminated, m.nOps, m.outbox + sent.0, m.unhandled + sent.1))
          case User(id) =>
            var s := env.proceed(id, None);
            var p2 := AfterCont(p1, s);
            if s.code == Next then Stop(m, Finished, Terminated)
            else if s.code != Call then Stop(m, Faulted(IllegalState, Current(m)), m.status)
            else if p2.next.None? then Stop(m, Faulted(IllegalState, Current(m)), m.status)
            else Run(m.(frame := p2, code := Call), env, v)))
  }

  /**
   * R_RETURN: run the frame's continuation on the caller, then go back to
   * the caller.  A continuation may answer R_EXCEPTION after raising on the
   * caller: the source then unwinds from the returning frame itself (which
   * `AsWritten` follows) although the exception is the caller's; `Corrected`
   * unwinds from the caller, the returning frame staying current as it does
   * after R_RETURN_EXCEPTION.
   */
  function Returned(m: Mach, env: Env, v: Variant): (r: RunOut)
    requires m.nOps <= 10 && Active(m.status) && m.code == Return
    ensures m.nOps <= r.ops <= 10
    ensures r.exit.Finished? <==> r.status == Terminated
    ensures r.exit.Suspended? ==> r.status == Paused || r.status == Waiting || r.status == Yielded
    ensures r.exit.Faulted? ==> Active(r.status)
    ensures r.status == Paused ==> r.ops == 10 && r.exit.Suspended? && r.exit.frame.pc >= 0
    ensures m.outbox <= r.outbox && m.unhandled <= r.unhandled
    decreases 10 - m.nOps, Depth(m.frame), 2, 0
  {
    var f := m.frame;
    var caller := f.prev;
    if f.cont.None? then Resumed(m, caller, env, v)
    else match f.cont.value
      case Proto(msg) =>
        (match ProtoProceed(msg, f)
         case Err(x) => Stop(m, Faulted(x, Some(f)), m.status)
         case Ok(sent) => Resumed(m.(outbox := m.outbox + sent.0, unhandled := m.unhandled + sent.1), caller, env, v))
      case User(id) =>
        var s := env.proceed(id, caller);
        var caller1 := if caller.Some? then Some(AfterCont(caller.value, s)) else None;
        if s.code == Next then Resumed(m, caller1, env, v)
        else if s.code == Exception then
          if caller1.None? then Stop(m, Faulted(NullPointer, Some(f)), m.status)
          else if caller1.value.exc.None? then Stop(m, Faulted(IllegalState, Some(f)), m.status)
          else if v == AsWritten then Run(m.(frame := f.(prev := caller1), code := Exception), env, v)
          else Run(m.(frame := caller1.value, code := Exception, held := Some(f.(prev := caller1))), env, v)
        else if s.code == Call then
          if caller1.None? then Stop(m, Faulted(NullPointer, Some(f)), m.status)
          else if caller1.value.next.None? then Stop(m, Faulted(IllegalState, Some(f)), m.status)
          else
            var c := caller1.value;
            Run(m.(frame := c.next.value.(prev := Some(c.(next := None))), code := Pc(0), held := None), env, v)
        else Stop(m, Faulted(IllegalState, Some(f)), m.status)
  }

  /** After a return: the fiber ends with the last frame, stays with a waiting caller, or goes on in the caller. */
  function Resumed(m: Mach, caller: Option<Frame>, env: Env, v: Variant): (r: RunOut)
    requires m.nOps <= 10 && Active(m.status)
    requires caller.Some? ==> Depth(caller.value) < Depth(m.frame)
    ensures m.nOps <= r.ops <= 10
    ensures r.exit.Finished? <==> r.status == Terminated
    ensures r.exit.Suspended? ==> r.status == Paused || r.status == Waiting || r.status == Yielded
    ensures r.exit.Faulted? ==> Active(r.status)
    ensures r.status == Paused ==> r.ops == 10 && r.exit.Suspended? && r.exit.frame.pc >= 0
    ensures m.outbox <= r.outbox && m.unhandled <= r.unhandled
    decreases 10 - m.nOps, Depth(m.frame), 0, 0
  {
    if caller.None? then Stop(m, Finished, Terminated)
    else if m.status == Waiting then Stop(m, Suspended(caller.value), Waiting)
    else Run(m.(frame := caller.value, code := Pc(caller.value.pc), held := None), env, v)
  }

  /**
   * The whole of `execute` on a frame, given its fiber's status and timeout
   * flag: a timed-out fiber starts by raising the timeout exception, a
   * waiting fiber whose registers are still waiting comes back at once, and
   * otherwise the fiber runs from the frame's pc.  `v` says how a
   * continuation that raises on the caller is handled (see `Returned`).
   */
  function Execution(f: Frame, status: FiberStatus, timedOut: bool, env: Env, v: Variant): (r: RunOut)
    ensures r.ops <= 10
    ensures r.exit.Finished? <==> r.status == Terminated
    ensures r.status == Paused ==> r.ops == 10 && r.exit.Suspended? && r.exit.frame.pc >= 0
    ensures r.status == Running ==> r.exit.Faulted?
    ensures !timedOut && status == Waiting && env.checkWaiting(f) == StillWaiting ==>
              r == RunOut(Suspended(f), Waiting, 0, [], [])
  {
    if timedOut then Run(Mach(f.(exc := Some(env.timeout)), Exception, f.pc, 0, Running, [], [], None), env, v)
    else if status == Waiting then
      match env.checkWaiting(f)
      case StillWaiting => RunOut(Suspended(f), Waiting, 0, [], [])
      case Raised(e) => Run(Mach(f.(exc := Some(e)), Exception, f.pc, 0, Running, [], [], None), env, v)
      case Ready => Run(Mach(f, Pc(f.pc), f.pc, 0, Running, [], [], None), env, v)
    else Run(Mach(f, Pc(f.pc), f.pc, 0, Running, [], [], None), env, v)
  }

  /** The op step that changes nothing and answers R_NEXT. */
  function Noop(g: Frame): OpStep {
    OpStep(Next, g.next, g.exc, g.vars,
           if g.prev.Some? then g.prev.value.exc else None,
           if g.prev.Some? then g.prev.value.vars else [])
  }

  /**
   * The op budget: when every op just moves on, a run from op `a` with `n`
   * ops already processed pauses after ten ops in all, with the frame's pc at
   * the first op it did not run.
   */
  lemma {:induction false} BudgetPauses(m: Mach, env: Env, v: Variant)
    requires m.nOps <= 10 && Active(m.status)
    requires m.code.Pc? && m.code.addr >= 0 && m.code.addr + (10 - m.nOps) < |m.frame.ops|
    requires forall op, g, i :: env.process(op, g, i) == Noop(g)
    ensures Run(m, env, v) == RunOut(Suspended(m.frame.(pc := m.code.addr + (10 - m.nOps))), Paused, 10, m.outbox, m.unhandled)
    decreases 10 - m.nOps
  {
    var a := m.code.addr;
    if m.nOps < 10 {
      var f1 := m.frame.(pc := a);
      var s := env.process(f1.ops[a], f1, a);
      assert AfterOp(f1, s) == f1;
      var m1 := m.(frame := f1, code := Pc(a + 1), last := a, nOps := m.nOps + 1);
      assert Run(m, env, v) == Run(m1, env, v);
      BudgetPauses(m1, env, v);
    }
  }

  /**
   * The corrected reading: when a continuation raises on the caller, the
   * returning frame takes no further part and the exception is unwound from
   * the caller, so a guard is looked for in the caller chain only.
   */
  lemma ContinuationRaisesOnCaller(m: Mach, env: Env, id: nat)
    requires m.nOps <= 10 && Active(m.status) && m.code == Return
    requires m.frame.cont == Some(User(id)) && m.frame.prev.Some?
    requires env.proceed(id, m.frame.prev).code == Exception
    requires env.proceed(id, m.frame.prev).exc.Some?
    ensures var c := AfterCont(m.frame.prev.value, env.proceed(id, m.frame.prev));
            Run(m, env, Corrected) == Run(m.(frame := c, code := Exception, held := Some(m.frame.(prev := Some(c)))), env, Corrected)
  {
  }

  /**
   * The source as written: when a continuation raises on the caller and the
   * returning frame has no exception of its own, the unwinding fails.
   */
  lemma AsWrittenFaultsWithoutOwnException(m: Mach, env: Env, id: nat)
    requires m.nOps <= 10 && Active(m.status) && m.code == Return
    requires m.frame.cont == Some(User(id)) && m.frame.prev.Some? && m.frame.exc.None?
    requires env.proceed(id, m.frame.prev).code == Exception
    requires env.proceed(id, m.frame.prev).exc.Some?
    ensures Run(m, env, AsWritten).exit.Faulted?
  {
    var c := AfterCont(m.frame.prev.value, env.proceed(id, m.frame.prev));
    var m1 := m.(frame := m.frame.(prev := Some(c)), code := Exception);
    assert Run(m, env, AsWritten) == Returned(m, env, AsWritten) == Run(m1, env, AsWritten);
    assert Run(m1, env, AsWritten) == Raised(m1, env, AsWritten);
  }

  /** An exception with a guard for it goes on at the guard's handler. */
  lemma RaisedToGuard(m: Mach, env: Env, v: Variant, h: Frame, g: nat)
    requires m.nOps <= 10 && Active(m.status) && m.code == Exception && m.frame.exc.Some?
    requires Unwind(m.frame, m.frame.exc.value, env.findGuard) == Handled(h, g)
    ensures Run(m, env, v) == Run(m.(frame := h, code := Pc(g), held := None), env, v)
  {
    assert Run(m, env, v) == Raised(m, env, v);
  }

  /**
   * An exception unwound to no guard, at a proto-frame whose continuation
   * calls nothing, faults with the frame that was current when the
   * unwinding began still current.
   */
  lemma UnwindFaultKeepsCurrent(m: Mach, env: Env, v: Variant)
    requires m.nOps <= 10 && Active(m.status) && m.code == Exception
    requires m.frame.exc.Some? ==> Unwind(m.frame, m.frame.exc.value, env.findGuard).Unguarded?
    requires forall id :: env.proceed(id, None).code != Call
    ensures Run(m, env, v).exit.Faulted? ==> Run(m, env, v).exit.current == Current(m)
  {
    assert Run(m, env, v) == Raised(m, env, v);
  }

  /**
   * R_RETURN_EXCEPTION moves only the frame in hand to the caller: a caller
   * holding no exception fails the assertion while the returning frame is
   * still current, and so does any other fault of an unguarded unwind.
   */
  lemma ReturnExceptionKeepsCallee(m: Mach, env: Env, v: Variant)
    requires m.nOps <= 10 && Active(m.status) && m.code == ReturnException && m.held.None?
    requires m.frame.prev.Some?
    requires m.frame.prev.value.exc.Some? ==>
               Unwind(m.frame.prev.value, m.frame.prev.value.exc.value, env.findGuard).Unguarded?
    requires forall id :: env.proceed(id, None).code != Call
    ensures m.frame.prev.value.exc.None? ==> Run(m, env, v) == Stop(m, Faulted(IllegalState, Some(m.frame)), m.status)
    ensures Run(m, env, v).exit.Faulted? ==> Run(m, env, v).exit.current == Some(m.frame)
  {
    var m1 := m.(frame := m.frame.prev.value, code := Exception, held := Some(m.frame));
    assert Run(m, env, v) == Run(m1, env, v);
    assert Run(m1, env, v) == Raised(m1, env, v);
    UnwindFaultKeepsCurrent(m1, env, v);
  }

  /** Within the budget, the op at `a` runs and its answer decides what comes next. */
  lemma SteppedOnce(m: Mach, env: Env, v: Variant, a: int)
    requires m.nOps < 10 && Active(m.status) && m.code == Pc(a) && 0 <= a < |m.frame.ops|
    ensures var f1 := m.frame.(pc := a);
            var s := env.process(f1.ops[a], f1, a);
            Run(m, env, v) == Run(m.(frame := AfterOp(f1, s), code := if s.code == Next then Pc(a + 1) else s.code,
                                     last := a, nOps := m.nOps + 1), env, v)
  {
    assert Run(m, env, v) == Stepped(m, a, env, v);
  }

  /** The frames and environment of the example below: a callee whose continuation raises exception 3 on its caller. */
  function LostCaller(fb: Fiber): Frame {
    Frame(fb, [Plain(0)], 0, None, None, None, None, [])
  }

  function LostCallee(fb: Fiber): Frame {
    Frame(fb, [Plain(1)], 0, Some(LostCaller(fb)), None, Some(User(7)), None, [])
  }

  function LostEnv(): Env {
    Env((op: Op, g: Frame, i: int) => OpStep(Yield, g.next, g.exc, g.vars, None, []),
        (id: nat, c: Option<Frame>) => ContStep(Exception, Some(3), [], None),
        (g: Frame, e: ExcId) => if g.cont.None? then 0 else -1,
        (g: Frame) => Ready, 0)
  }

  /** The corrected half of the example: the caller's guard takes the exception and its op yields. */
  lemma CorrectedFindsCallerGuard(fb: Fiber)
    ensures Run(Mach(LostCallee(fb), Return, 0, 1, Running, [], [], None), LostEnv(), Corrected) ==
              RunOut(Suspended(LostCaller(fb).(exc := Some(3), pc := 1)), Yielded, 2, [], [])
  {
    var caller, callee, env := LostCaller(fb), LostCallee(fb), LostEnv();
    var m := Mach(callee, Return, 0, 1, Running, [], [], None);
    var c1 := caller.(exc := Some(3));
    assert AfterCont(caller, env.proceed(7, Some(caller))) == c1;
    ContinuationRaisesOnCaller(m, env, 7);
    var m1 := m.(frame := c1, code := Exception, held := Some(callee.(prev := Some(c1))));
    assert Unwind(c1, 3, env.findGuard) == Handled(c1, 0);
    RaisedToGuard(m1, env, Corrected, c1, 0);
    var m2 := m1.(code := Pc(0), held := None);
    SteppedOnce(m2, env, Corrected, 0);
    var m3 := m2.(frame := c1.(pc := 0), code := Yield, last := 0, nOps := 2);
    assert AfterOp(c1.(pc := 0), env.process(Plain(0), c1.(pc := 0), 0)) == c1.(pc := 0);
    assert Run(m3, env, Corrected) == Stop(m3, Suspended(c1.(pc := 1)), Yielded);
  }

  /**
   * The source as written: a continuation that raises on the caller makes
   * `execute` read the exception of the returning frame instead, so a callee
   * with no exception of its own fails the assertion, where the corrected
   * reading hands the caller's exception to the caller's guard.
   */
  lemma AsWrittenLosesCallerException(fb: Fiber)
    ensures var m := Mach(LostCallee(fb), Return, 0, 1, Running, [], [], None);
            Run(m, LostEnv(), AsWritten).exit.Faulted? &&
            Run(m, LostEnv(), Corrected) == RunOut(Suspended(LostCaller(fb).(exc := Some(3), pc := 1)), Yielded, 2, [], [])
  {
    var m := Mach(LostCallee(fb), Return, 0, 1, Running, [], [], None);
    AsWrittenFaultsWithoutOwnException(m, LostEnv(), 7);
    CorrectedFindsCallerGuard(fb);
  }

  /** The current frame on exit from `execute`: none when the fiber finished, the kept one after a fault. */
  function CurrentOnExit(e: Exit): Option<Frame> {
    match e
    case Suspended(f) => Some(f)
    case Faulted(_, c) => c
    case Finished => None
  }

  /** The answer of a response's future: its value, or its exception. */
  function Settled(s: FutureState, r: Response): (t: FutureState)
    ensures !s.Pending? ==> t == s
    ensures s.Pending? ==> (t.FailedWith? <==> r.exc.Some?)
  {
    if !s.Pending? then s
    else if r.exc.None? then Completed(r.payload)
    else FailedWith(r.exc.value)
  }

  /** A future's state after the first `k` responses of `rs` have run, in order. */
  function SettleAll(s: FutureState, rs: seq<Response>, k: nat, f: Future): FutureState
    requires k <= |rs|
  {
    if k == 0 then s
    else
      var t := SettleAll(s, rs, k - 1, f);
      if rs[k - 1].future == f then Settled(t, rs[k - 1]) else t
  }

  /**
   * Futures are written once: after a run of responses a pending future
   * holds the answer of the first response for it, and stays pending when
   * there is none; a settled future keeps its state.
   */
  lemma {:induction false} FirstResponseWins(s: FutureState, rs: seq<Response>, k: nat, f: Future)
    requires k <= |rs|
    ensures !s.Pending? ==> SettleAll(s, rs, k, f) == s
    ensures (forall i :: 0 <= i < k ==> rs[i].future != f) ==> SettleAll(s, rs, k, f) == s
    ensures forall i :: 0 <= i < k && rs[i].future == f && (forall j :: 0 <= j < i ==> rs[j].future != f) ==>
              SettleAll(s, rs, k, f) == Settled(s, rs[i])
    decreases k
  {
    if k > 0 {
      FirstResponseWins(s, rs, k - 1, f);
      forall i | 0 <= i < k && rs[i].future == f && (forall j :: 0 <= j < i ==> rs[j].future != f)
        ensures SettleAll(s, rs, k, f) == Settled(s, rs[i])
      {
        if i < k - 1 {
          assert !Settled(s, rs[i]).Pending? || !s.Pending?;
        }
      }
    }
  }

  /** `Response.run`: the calling fiber is marked responded and the future is completed once. */
  method RunResponse(r: Response) returns (removal: Option<nat>)
    modifies r.caller`responded, r.future`state
    ensures r.caller.responded
    ensures r.future.state == Settled(old(r.future.state), r)
    ensures removal == (if old(r.future.state).Pending? && r.exc.Some? then r.future.removes else None)
  {
    r.caller.responded := true;
    removal := None;
    if r.future.state.Pending? {
      if r.exc.None? {
        r.future.state := Completed(r.payload);
      } else {
        r.future.state := FailedWith(r.exc.value);
        removal := r.future.removes;
      }
    }
  }

  /** The number of variables of a request's proto-frame: one per return value. */
  function ReturnCount(req: Request): nat {
    match req
    case Construct(_) => 1
    case Invoke1(c, _) => c
    case InvokeN(c, _) => c
    case PropertyOp(c, _) => c
  }

  /**
   * `Message.createFrame`: the proto-frame of a message, on a new fiber; its
   * ops are the request's entry op and RETURN_0, its variables collect the
   * return values and its continuation answers the caller.
   */
  function EntryFrame(msg: Message, fb: Fiber): (f: Frame)
    ensures f.fiber == fb && f.pc == 0 && f.prev.None? && f.next.None? && f.exc.None?
    ensures f.ops == [Entry(msg), Return0] && f.cont == Some(Proto(msg))
    ensures |f.vars| == ReturnCount(msg.request) && forall i :: 0 <= i < |f.vars| ==> f.vars[i].None?
  {
    Frame(fb, [Entry(msg), Return0], 0, None, None, Some(Proto(msg)), None, seq(ReturnCount(msg.request), _ => None))
  }

  /** The mailbox envelope of a request sent from `caller` (none for a call from outside any frame). */
  function Envelope(caller: Option<Frame>, req: Request): (m: Message)
    ensures m.request == req
    ensures caller.None? ==> m.callerFiber.None? && m.callerPc == -1
    ensures caller.Some? ==> m.callerFiber == Some(caller.value.fiber) && m.callerPc == caller.value.pc
  {
    if caller.None? then Message(None, -1, req)
    else Message(Some(caller.value.fiber), caller.value.pc, req)
  }

  /** What a fiber queue selection sees of a fiber. */
  datatype FiberView = FiberView(status: FiberStatus, responded: bool, timedOut: bool)

  /** The two selections of the fiber queue. */
  datatype Query = AssociatedOrYielded | AnyReady

  function View(fb: Fiber): FiberView
    reads fb
  {
    FiberView(fb.status, fb.responded, fb.timedOut)
  }

  function FibersOf(fs: seq<Frame>): set<Fiber> {
    set i | 0 <= i < |fs| :: fs[i].fiber
  }

  function Views(fs: seq<Frame>): (vs: seq<FiberView>)
    reads FibersOf(fs)
    ensures |vs| == |fs| && forall i :: 0 <= i < |fs| ==> vs[i] == View(fs[i].fiber)
  {
    if fs == [] then []
    else
      assert FibersOf(fs[1..]) <= FibersOf(fs) by {
        forall i | 0 <= i < |fs[1..]| ensures fs[1..][i].fiber in FibersOf(fs) { assert fs[1..][i] == fs[i + 1]; }
      }
      [View(fs[0].fiber)] + Views(fs[1..])
  }

  /** A selection function names a frame of the queue, if any. */
  ghost predicate SelectsWithin(select: (seq<FiberView>, Query) -> Option<nat>) {
    forall vs, q :: select(vs, q).Some? ==> select(vs, q).value < |vs|
  }

  /** Take the selected frame out of the queue. */
  function Take(q: seq<Frame>, i: Option<nat>): (r: (Result<Option<Frame>>, seq<Frame>))
    requires i.Some? ==> i.value < |q|
    ensures i.None? ==> r == (Ok(None), q)
    ensures i.Some? ==> r.0 == Ok(Some(q[i.value])) && multiset(r.1) + multiset{q[i.value]} == multiset(q)
    ensures i.Some? ==> |r.1| == |q| - 1
  {
    if i.None? then (Ok(None), q)
    else
      var k := i.value;
      assert q == q[..k] + [q[k]] + q[k + 1..];
      (Ok(Some(q[k])), q[..k] + q[k + 1..])
  }

  /**
   * The choice of `nextFiber` among suspended fibers by the reentrancy
   * policy: Forbidden does not allow it, Exclusive only continues an
   * existing thread of execution, Prioritized prefers one and otherwise
   * takes any ready fiber, Open takes any ready fiber.
   */
  function Choose(policy: Reentrancy, q: seq<Frame>, vs: seq<FiberView>,
                  select: (seq<FiberView>, Query) -> Option<nat>): (r: (Result<Option<Frame>>, seq<Frame>))
    requires SelectsWithin(select) && |vs| == |q|
    ensures policy == Forbidden <==> r.0.Err?
    ensures r.0.Err? ==> r.1 == q
    ensures r.0.Ok? && r.0.value.None? ==> r.1 == q
    ensures r.0.Ok? && r.0.value.Some? ==> r.0.value.value in q && multiset(r.1) + multiset{r.0.value.value} == multiset(q)
    ensures policy == Exclusive ==> r == Take(q, select(vs, AssociatedOrYielded))
    ensures policy == Open ==> r == Take(q, select(vs, AnyReady))
    ensures policy == Prioritized && select(vs, AssociatedOrYielded).Some? ==> r == Take(q, select(vs, AssociatedOrYielded))
    ensures policy == Prioritized && select(vs, AssociatedOrYielded).None? ==> r == Take(q, select(vs, AnyReady))
  {
    match policy
    case Forbidden => (Err(IllegalState), q)
    case Exclusive => Take(q, select(vs, AssociatedOrYielded))
    case Prioritized =>
      var a := select(vs, AssociatedOrYielded);
      if a.Some? then Take(q, a) else Take(q, select(vs, AnyReady))
    case Open => Take(q, select(vs, AnyReady))
  }

  /** One step of `execute` either goes on in a new state or has ended. */
  datatype Step = Go(m: Mach) | Stopped(out: RunOut)

  /** `m2` comes after `m1` in the order that makes `execute` terminate. */
  predicate Below(m2: Mach, m1: Mach) {
    m2.nOps > m1.nOps ||
    (m2.nOps == m1.nOps && (Second(m2) < Second(m1) || (Second(m2) == Second(m1) && Rank(m2.code) < Rank(m1.code))))
  }

  /**
   * The R_RETURN case of `execute`, continuation included; as written, a
   * continuation that raises on the caller leaves the returning frame in hand.
   */
  method ReturnStep(m: Mach, env: Env, v: Variant) returns (r: Step)
    requires m.nOps <= 10 && Active(m.status) && m.code == Return
    ensures r.Stopped? ==> r.out == Run(m, env, v)
    ensures r.Go? ==> r.m.nOps == m.nOps && r.m.status == m.status && Below(r.m, m) &&
                      Run(r.m, env, v) == Run(m, env, v)
  {
    var f := m.frame;
    var outbox := m.outbox;
    var unhandled := m.unhandled;
    var caller := f.prev;
    if f.cont.Some? {
      match f.cont.value
      case Proto(msg) =>
        var sent := ProtoProceed(msg, f);
        if sent.Err? {
          return Stopped(Stop(m, Faulted(sent.fault, Some(f)), m.status));
        }
        outbox := outbox + sent.value.0;
        unhandled := unhandled + sent.value.1;
      case User(id) =>
        var st := env.proceed(id, caller);
        caller := if caller.Some? then Some(AfterCont(caller.value, st)) else None;
        if st.code != Next {
          r := ContinuedStep(m, env, v, id);
          return;
        }
    }
    var m2 := m.(outbox := outbox, unhandled := unhandled);
    assert Run(m, env, v) == Resumed(m2, caller, env, v);
    if caller.None? {
      return Stopped(Stop(m2, Finished, Terminated));
    }
    if m.status == Waiting {
      return Stopped(Stop(m2, Suspended(caller.value), Waiting));
    }
    return Go(m2.(frame := caller.value, code := Pc(caller.value.pc), held := None));
  }

  /**
   * A returning frame's own continuation answered a code other than R_NEXT:
   * it raised on the caller, called from it, or answered something invalid.
   */
  method ContinuedStep(m: Mach, env: Env, v: Variant, id: nat) returns (r: Step)
    requires m.nOps <= 10 && Active(m.status) && m.code == Return
    requires m.frame.cont == Some(User(id)) && env.proceed(id, m.frame.prev).code != Next
    ensures r.Stopped? ==> r.out == Run(m, env, v)
    ensures r.Go? ==> r.m.nOps == m.nOps && r.m.status == m.status && Below(r.m, m) &&
                      Run(r.m, env, v) == Run(m, env, v)
  {
    var f := m.frame;
    var st := env.proceed(id, f.prev);
    var caller := if f.prev.Some? then Some(AfterCont(f.prev.value, st)) else None;
    if st.code == Exception {
      if caller.None? {
        return Stopped(Stop(m, Faulted(NullPointer, Some(f)), m.status));
      }
      if caller.value.exc.None? {
        return Stopped(Stop(m, Faulted(IllegalState, Some(f)), m.status));
      }
      if v == AsWritten {
        return Go(m.(frame := f.(prev := caller), code := Exception));
      }
      return Go(m.(frame := caller.value, code := Exception, held := Some(f.(prev := caller))));
    } else if st.code == Call {
      if caller.None? {
        return Stopped(Stop(m, Faulted(NullPointer, Some(f)), m.status));
      }
      if caller.value.next.None? {
        return Stopped(Stop(m, Faulted(IllegalState, Some(f)), m.status));
      }
      var c := caller.value;
      return Go(m.(frame := c.next.value.(prev := Some(c.(next := None))), code := Pc(0), held := None));
    }
    return Stopped(Stop(m, Faulted(IllegalState, Some(f)), m.status));
  }

  /**
   * The R_EXCEPTION case of `execute`: walk the caller chain to the first
   * frame with a guard; at the proto-frame, hand the exception to its
   * continuation.
   */
  method UnwindStep(m: Mach, env: Env, v: Variant) returns (r: Step)
    requires m.nOps <= 10 && Active(m.status) && m.code == Exception
    ensures r.Stopped? ==> r.out == Run(m, env, v)
    ensures r.Go? ==> r.m.nOps == m.nOps && r.m.status == m.status && Below(r.m, m) &&
                      Run(r.m, env, v) == Run(m, env, v)
  {
    var f := m.frame;
    if f.exc.None? {
      return Stopped(Stop(m, Faulted(IllegalState, Current(m)), m.status));
    }
    var e := f.exc.value;
    var h := f;
    while env.findGuard(h, e) < 0 && h.prev.Some?
      invariant Unwind(h, e, env.findGuard) == Unwind(f, e, env.findGuard)
      decreases Depth(h)
    {
      h := h.prev.value;
    }
    var g := env.findGuard(h, e);
    if g >= 0 {
      return Go(m.(frame := h, code := Pc(g), held := None));
    }
    if h.cont.None? {
      return Stopped(Stop(m, Faulted(IllegalState, Current(m)), m.status));
    }
    var p1 := h.(exc := Some(e));
    match p1.cont.value
    case Proto(msg) =>
      var sent := ProtoProceed(msg, p1);
      if sent.Err? {
        return Stopped(Stop(m, Faulted(sent.fault, Current(m)), m.status));
      }
      return Stopped(RunOut(Finished, Terminated, m.nOps, m.outbox + sent.value.0, m.unhandled + sent.value.1));
    case User(id) =>
      var st := env.proceed(id, None);
      var p2 := AfterCont(p1, st);
      if st.code == Next {
        return Stopped(Stop(m, Finished, Terminated));
      }
      if st.code != Call || p2.next.None? {
        return Stopped(Stop(m, Faulted(IllegalState, Current(m)), m.status));
      }
      assert Depth(p2) == Depth(h);
      return Go(m.(frame := p2, code := Call));
  }

  /** The op case: a jump address is checked against the budget and the code, and the op is processed. */
  method PcStep(m: Mach, env: Env, v: Variant, a: int) returns (r: Step)
    requires m.nOps <= 10 && Active(m.status) && m.code == Pc(a)
    ensures r.Stopped? ==> r.out == Run(m, env, v)
    ensures r.Go? ==> r.m.nOps <= 10 && Active(r.m.status) && Below(r.m, m) &&
                      Run(r.m, env, v) == Run(m, env, v)
  {
    var f := m.frame;
    if a < 0 {
      return Stopped(Stop(m, Faulted(IllegalState, Some(f)), m.status));
    }
    f := f.(pc := a);
    if m.nOps + 1 > 10 {
      return Stopped(Stop(m, Suspended(f), Paused));
    }
    if a >= |f.ops| {
      return Stopped(Stop(m, Faulted(OutOfBounds, Some(f)), m.status));
    }
    var st := env.process(f.ops[a], f, a);
    return Go(m.(frame := AfterOp(f, st), code := if st.code == Next then Pc(a + 1) else st.code,
                 last := a, nOps := m.nOps + 1));
  }

  /**
   * R_CALL and R_RETURN_EXCEPTION: go into the frame `next`, whose caller
   * resumes after the calling op, or raise the exception anew on the caller.
   */
  method FrameStep(m: Mach, env: Env, v: Variant) returns (r: Step)
    requires m.nOps <= 10 && Active(m.status) && (m.code == Call || m.code == ReturnException)
    ensures r.Stopped? ==> r.out == Run(m, env, v)
    ensures r.Go? ==> r.m.nOps <= 10 && Active(r.m.status) && Below(r.m, m) &&
                      Run(r.m, env, v) == Run(m, env, v)
  {
    var f := m.frame;
    if m.code == Call {
      if f.next.None? {
        return Stopped(Stop(m, Faulted(NullPointer, None), m.status));
      }
      var caller := f.(pc := m.last + 1, next := None);
      return Go(m.(frame := f.next.value.(prev := Some(caller)), code := Pc(0), held := None));
    }
    if f.prev.None? {
      return Stopped(Stop(m, Faulted(NullPointer, Current(m)), m.status));
    }
    return Go(m.(frame := f.prev.value, code := Exception, held := Current(m)));
  }

  /**
   * One turn of the interpreter loop of `execute`: run the op at the current
   * address, or act on the control code the last op answered.
   */
  method StepOnce(m: Mach, env: Env, v: Variant) returns (r: Step)
    requires m.nOps <= 10 && Active(m.status)
    ensures r.Stopped? ==> r.out == Run(m, env, v)
    ensures r.Go? ==> r.m.nOps <= 10 && Active(r.m.status) && Below(r.m, m) &&
                      Run(r.m, env, v) == Run(m, env, v)
  {
    var f := m.frame;
    match m.code
    case Pc(a) =>
      r := PcStep(m, env, v, a);
    case Call =>
      r := FrameStep(m, env, v);
    case Return =>
      r := ReturnStep(m, env, v);
    case BlockReturn =>
      r := ReturnStep(m.(status := Waiting, code := Return), env, v);
    case ReturnException =>
      r := FrameStep(m, env, v);
    case Exception =>
      r := UnwindStep(m, env, v);
    case Repeat =>
      return Stopped(Stop(m, Suspended(f.(pc := m.last)), Waiting));
    case Block =>
      return Stopped(Stop(m, Suspended(f.(pc := m.last + 1)), Waiting));
    case Yield =>
      return Stopped(Stop(m, Suspended(f.(pc := m.last + 1)), Yielded));
    case Next =>
      return Stopped(Stop(m, Faulted(IllegalState, Current(m)), m.status));
  }

  /** The fibers and futures that a queue of responses touches. */
  function CallersOf(rs: seq<Response>): set<Fiber> {
    set i | 0 <= i < |rs| :: rs[i].caller
  }

  function FuturesOf(rs: seq<Response>): set<Future> {
    set i | 0 <= i < |rs| :: rs[i].future
  }

  /** The states of the futures of `rs`, response by response. */
  function StatesOf(rs: seq<Response>): (ss: seq<FutureState>)
    reads FuturesOf(rs)
    ensures |ss| == |rs| && forall i :: 0 <= i < |rs| ==> ss[i] == rs[i].future.state
  {
    seq(|rs|, i requires 0 <= i < |rs| reads FuturesOf(rs) => rs[i].future.state)
  }

  /**
   * The services the first `k` responses of `rs` ask to remove, given each
   * response's future state before any of them ran: a response that fails
   * its still pending future removes the service that future was made for.
   */
  function Removals(rs: seq<Response>, ss: seq<FutureState>, k: nat): seq<nat>
    requires |ss| == |rs| && k <= |rs|
  {
    if k == 0 then []
    else
      var i := k - 1;
      var f := rs[i].future;
      Removals(rs, ss, i) +
        (if SettleAll(ss[i], rs, i, f).Pending? && rs[i].exc.Some? && f.removes.Some? then [f.removes.value] else [])
  }

  /** Running response `k` changes only the state of its own future. */
  lemma SettleStep(ss: seq<FutureState>, rs: seq<Response>, k: nat)
    requires |ss| == |rs| && k < |rs|
    ensures forall i :: 0 <= i < |rs| && rs[i].future == rs[k].future ==>
              SettleAll(ss[i], rs, k + 1, rs[i].future) == Settled(SettleAll(ss[i], rs, k, rs[i].future), rs[k])
    ensures forall i :: 0 <= i < |rs| && rs[i].future != rs[k].future ==>
              SettleAll(ss[i], rs, k + 1, rs[i].future) == SettleAll(ss[i], rs, k, rs[i].future)
  {
  }

  /** The initial status of a message's new fiber. */
  function InitialStatus(associated: bool): FiberStatus {
    if associated then InitialAssociated else InitialNew
  }

  /** A service: its mailbox, its suspended fibers and the frame it is running. */
  class ServiceContext {
    const id: nat
    var reentrancy: Reentrancy
    var queueMsg: seq<Message>
    var queueResponse: seq<Response>
    var suspended: seq<Frame>
    var current: Option<Frame>

    constructor (id: nat)
      ensures this.id == id && reentrancy == Prioritized
      ensures queueMsg == [] && queueResponse == [] && suspended == [] && current == None
    {
      this.id := id;
      reentrancy := Prioritized;
      queueMsg := [];
      queueResponse := [];
      suspended := [];
      current := None;
    }

    method AddRequest(msg: Message)
      modifies this`queueMsg
      ensures queueMsg == old(queueMsg) + [msg]
      ensures IsContended()
    {
      queueMsg := queueMsg + [msg];
    }

    method Respond(r: Response)
      modifies this`queueResponse
      ensures queueResponse == old(queueResponse) + [r]
      ensures IsContended() == old(IsContended())
    {
      queueResponse := queueResponse + [r];
    }

    /** Work is waiting or under way: a message, a suspended fiber or a current frame (responses do not count). */
    function IsContended(): (r: bool)
      reads this
      ensures current.Some? ==> r
      ensures !r ==> queueMsg == [] && suspended == []
    {
      queueMsg != [] || suspended != [] || current.Some?
    }

    /**
     * `suspendFiber`: file a frame away by its fiber's status.  A running
     * fiber cannot be suspended (the result is false); a new fiber is queued;
     * a waiting or yielded one stays current under Forbidden reentrancy and
     * is otherwise queued; a paused one stays current.
     */
    method SuspendFiber(frame: Frame) returns (ok: bool)
      modifies this`current, this`suspended
      ensures ok <==> frame.fiber.status != Running
      ensures frame.fiber.status in {Running, Terminated} ==> current == old(current) && suspended == old(suspended)
      ensures frame.fiber.status in {InitialNew, InitialAssociated} ==>
                current == old(current) && suspended == old(suspended) + [frame]
      ensures frame.fiber.status in {Waiting, Yielded} && reentrancy == Forbidden ==>
                current == Some(frame) && suspended == old(suspended)
      ensures frame.fiber.status in {Waiting, Yielded} && reentrancy != Forbidden ==>
                current == None && suspended == old(suspended) + [frame]
      ensures frame.fiber.status == Paused ==> current == Some(frame) && suspended == old(suspended)
    {
      ok := true;
      match frame.fiber.status
      case Running =>
        ok := false;
      case InitialNew =>
        suspended := suspended + [frame];
      case InitialAssociated =>
        suspended := suspended + [frame];
      case Waiting =>
        if reentrancy == Forbidden {
          current := Some(frame);
        } else {
          current := None;
          suspended := suspended + [frame];
        }
      case Yielded =>
        if reentrancy == Forbidden {
          current := Some(frame);
        } else {
          current := None;
          suspended := suspended + [frame];
        }
      case Paused =>
        current := Some(frame);
      case Terminated =>
    }

    /** Run all queued responses, in order. */
    method DrainResponses() returns (removed: seq<nat>)
      modifies this`queueResponse, CallersOf(queueResponse), FuturesOf(queueResponse)
      ensures queueResponse == []
      ensures forall i :: 0 <= i < |old(queueResponse)| ==> old(queueResponse)[i].caller.responded
      ensures forall i :: 0 <= i < |old(queueResponse)| ==>
                old(queueResponse)[i].future.state ==
                SettleAll(old(StatesOf(queueResponse))[i], old(queueResponse), |old(queueResponse)|, old(queueResponse)[i].future)
      ensures removed == Removals(old(queueResponse), old(StatesOf(queueResponse)), |old(queueResponse)|)
    {
      ghost var rs := queueResponse;
      ghost var ss := StatesOf(queueResponse);
      ghost var k := 0;
      removed := [];
      while queueResponse != []
        invariant 0 <= k <= |rs| && queueResponse == rs[k..]
        invariant forall i :: 0 <= i < k ==> rs[i].caller.responded
        invariant forall i :: 0 <= i < |rs| ==> rs[i].future.state == SettleAll(ss[i], rs, k, rs[i].future)
        invariant removed == Removals(rs, ss, k)
        invariant forall i, j :: 0 <= i < |rs| && 0 <= j < |rs| && rs[i].future == rs[j].future ==> ss[i] == ss[j]
        decreases |queueResponse|
      {
        var x := DrainOne(rs, ss, k);
        if x.Some? {
          removed := removed + [x.value];
        } else {
          assert removed + [] == removed;
        }
        k := k + 1;
      }
    }

    /** One step of `DrainResponses`: run the next queued response. */
    method DrainOne(ghost rs: seq<Response>, ghost ss: seq<FutureState>, ghost k: nat) returns (x: Option<nat>)
      requires |ss| == |rs| && k < |rs| && queueResponse == rs[k..]
      requires forall i, j :: 0 <= i < |rs| && 0 <= j < |rs| && rs[i].future == rs[j].future ==> ss[i] == ss[j]
      requires forall i :: 0 <= i < |rs| ==> rs[i].future.state == SettleAll(ss[i], rs, k, rs[i].future)
      modifies this`queueResponse, rs[k].caller`responded, rs[k].future`state
      ensures queueResponse == rs[k + 1..]
      ensures rs[k].caller.responded
      ensures forall i :: 0 <= i < |rs| ==> rs[i].future.state == SettleAll(ss[i], rs, k + 1, rs[i].future)
      ensures Removals(rs, ss, k + 1) == Removals(rs, ss, k) + (if x.Some? then [x.value] else [])
    {
      var r := queueResponse[0];
      queueResponse := queueResponse[1..];
      assert r == rs[k];
      ghost var before := r.future.state;
      assert before == SettleAll(ss[k], rs, k, r.future);
      x := RunResponse(r);
      SettleStep(ss, rs, k);
      forall i | 0 <= i < |rs|
        ensures rs[i].future.state == SettleAll(ss[i], rs, k + 1, rs[i].future)
      {
        if rs[i].future == r.future {
          assert ss[i] == ss[k];
        }
      }
    }

    /**
     * `nextFiber`: run every queued response, turn every queued message into
     * a proto-frame on a new fiber and file it away, then pick the frame to
     * run: the current frame if its fiber is ready (and none otherwise),
     * nothing when no fiber is suspended, and else a suspended frame chosen
     * by the reentrancy policy, which leaves the queue.
     */
    method NextFiber(associated: Message -> bool, ready: FiberView -> bool,
                     select: (seq<FiberView>, Query) -> Option<nat>)
      returns (r: Result<Option<Frame>>, removed: seq<nat>, ghost drained: seq<Frame>)
      requires SelectsWithin(select)
      modifies this`queueResponse, this`queueMsg, this`suspended, this`current, CallersOf(queueResponse), FuturesOf(queueResponse)
      ensures queueResponse == [] && queueMsg == [] && current == old(current)
      ensures forall i :: 0 <= i < |old(queueResponse)| ==> old(queueResponse)[i].caller.responded
      ensures forall i :: 0 <= i < |old(queueResponse)| ==>
                old(queueResponse)[i].future.state ==
                SettleAll(old(StatesOf(queueResponse))[i], old(queueResponse), |old(queueResponse)|, old(queueResponse)[i].future)
      ensures removed == Removals(old(queueResponse), old(StatesOf(queueResponse)), |old(queueResponse)|)
      ensures |drained| == |old(queueMsg)|
      ensures forall i :: 0 <= i < |drained| ==>
                fresh(drained[i].fiber) && drained[i] == EntryFrame(old(queueMsg)[i], drained[i].fiber) &&
                drained[i].fiber.status == InitialStatus(associated(old(queueMsg)[i]))
      ensures current.Some? ==>
                r == Ok(if ready(View(current.value.fiber)) then current else None) &&
                suspended == old(suspended) + drained
      ensures current.None? && old(suspended) + drained == [] ==> r == Ok(None) && suspended == []
      ensures current.None? && old(suspended) + drained != [] ==>
                (r, suspended) == Choose(reentrancy, old(suspended) + drained, Views(old(suspended) + drained), select)
    {
      removed := DrainResponses();
      drained := DrainMessages(associated);
      r := PickFrame(ready, select);
    }

    /** The message half of `nextFiber`: each message becomes a proto-frame on a new fiber, queued in order. */
    method DrainMessages(associated: Message -> bool) returns (ghost drained: seq<Frame>)
      modifies this`queueMsg, this`suspended, this`current
      ensures queueMsg == [] && suspended == old(suspended) + drained && current == old(current)
      ensures |drained| == |old(queueMsg)|
      ensures forall i :: 0 <= i < |drained| ==>
                fresh(drained[i].fiber) && drained[i] == EntryFrame(old(queueMsg)[i], drained[i].fiber) &&
                drained[i].fiber.status == InitialStatus(associated(old(queueMsg)[i]))
    {
      ghost var msgs := queueMsg;
      ghost var k := 0;
      drained := [];
      while queueMsg != []
        invariant 0 <= k <= |msgs| && queueMsg == msgs[k..] && |drained| == k
        invariant suspended == old(suspended) + drained && current == old(current)
        invariant forall i :: 0 <= i < k ==>
                    fresh(drained[i].fiber) && drained[i] == EntryFrame(msgs[i], drained[i].fiber) &&
                    drained[i].fiber.status == InitialStatus(associated(msgs[i]))
        decreases |queueMsg|
      {
        var msg := queueMsg[0];
        queueMsg := queueMsg[1..];
        var fb := new Fiber(associated(msg));
        var frame := EntryFrame(msg, fb);
        var ok := SuspendFiber(frame);
        drained := drained + [frame];
        k := k + 1;
      }
    }

    /** The selection half of `nextFiber`. */
    method PickFrame(ready: FiberView -> bool, select: (seq<FiberView>, Query) -> Option<nat>)
      returns (r: Result<Option<Frame>>)
      requires SelectsWithin(select)
      modifies this`suspended
      ensures current.Some? ==>
                r == Ok(if ready(View(current.value.fiber)) then current else None) && suspended == old(suspended)
      ensures current.None? && old(suspended) == [] ==> r == Ok(None) && suspended == []
      ensures current.None? && old(suspended) != [] ==>
                (r, suspended) == Choose(reentrancy, old(suspended), Views(old(suspended)), select)
    {
      if current.Some? {
        r := Ok(if ready(View(current.value.fiber)) then current else None);
      } else if suspended == [] {
        r := Ok(None);
      } else {
        ghost var vs := Views(suspended);
        var choice := Choose(reentrancy, suspended, Views(suspended), select);
        r, suspended := choice.0, choice.1;
        assert vs == Views(old(suspended));
      }
    }

    /**
     * `sendConstructRequest`: queue a construction of the service behind a new
     * future; a construction that fails removes this service.
     */
    method SendConstructRequest(caller: Option<Frame>) returns (future: Future)
      modifies this`queueMsg
      ensures fresh(future) && future.state == Pending && future.removes == Some(id)
      ensures queueMsg == old(queueMsg) + [Envelope(caller, Construct(future))]
    {
      future := new Future(Some(id));
      AddRequest(Envelope(caller, Construct(future)));
    }

    /** `sendInvoke1Request`: queue a call with at most one return value; a future only when one is wanted. */
    method SendInvoke1Request(caller: Option<Frame>, cReturns: nat) returns (future: Option<Future>)
      modifies this`queueMsg
      ensures future.None? <==> cReturns == 0
      ensures future.Some? ==> fresh(future.value) && future.value.state == Pending && future.value.removes.None?
      ensures queueMsg == old(queueMsg) + [Envelope(caller, Invoke1(cReturns, future))]
    {
      if cReturns == 0 {
        future := None;
      } else {
        var fut := new Future(None);
        future := Some(fut);
      }
      AddRequest(Envelope(caller, Invoke1(cReturns, future)));
    }

    /** `sendInvokeNRequest`: queue a call with several return values behind a new future. */
    method SendInvokeNRequest(caller: Option<Frame>, cReturns: nat) returns (future: Future)
      modifies this`queueMsg
      ensures fresh(future) && future.state == Pending && future.removes.None?
      ensures queueMsg == old(queueMsg) + [Envelope(caller, InvokeN(cReturns, future))]
    {
      future := new Future(None);
      AddRequest(Envelope(caller, InvokeN(cReturns, future)));
    }

    /** `sendProperty01Request`: queue a property read, whose one value comes back through a new future. */
    method SendProperty01Request(caller: Option<Frame>) returns (future: Future)
      modifies this`queueMsg
      ensures fresh(future) && future.state == Pending && future.removes.None?
      ensures queueMsg == old(queueMsg) + [Envelope(caller, PropertyOp(1, Some(future)))]
    {
      future := new Future(None);
      AddRequest(Envelope(caller, PropertyOp(1, Some(future))));
    }

    /** `sendProperty10Request`: queue a property write, which answers nothing. */
    method SendProperty10Request(caller: Option<Frame>)
      modifies this`queueMsg
      ensures queueMsg == old(queueMsg) + [Envelope(caller, PropertyOp(0, None))]
    {
      AddRequest(Envelope(caller, PropertyOp(0, None)));
    }

    /** `callLater`: queue a call from outside any frame that answers nothing, and go on (R_NEXT). */
    method CallLater() returns (c: Ctl)
      modifies this`queueMsg
      ensures c == Next
      ensures queueMsg == old(queueMsg) + [Message(None, -1, Invoke1(0, None))]
    {
      var future := SendInvoke1Request(None, 0);
      c := Next;
    }

    /**
     * `execute`: run the frame's fiber until it suspends, finishes or fails,
     * processing at most ten ops (`Execution`).  The frame in hand on exit
     * becomes the current frame (none when the fiber finished).  With
     * `AsWritten` this is the loop of the source; with `Corrected`, the loop
     * with the returning-continuation fix.
     */
    method Execute(frame: Frame, env: Env, v: Variant) returns (out: RunOut)
      modifies this`current, frame.fiber`status, frame.fiber`responded
      ensures out == Execution(frame, old(frame.fiber.status), frame.fiber.timedOut, env, v)
      ensures frame.fiber.status == out.status
      ensures current == CurrentOnExit(out.exit)
      ensures old(frame.fiber.status) == Waiting && !frame.fiber.timedOut && env.checkWaiting(frame) == StillWaiting ==>
                frame.fiber.responded == old(frame.fiber.responded)
      ensures !(old(frame.fiber.status) == Waiting && !frame.fiber.timedOut && env.checkWaiting(frame) == StillWaiting) ==>
                !frame.fiber.responded
    {
      var fiber := frame.fiber;
      var f := frame;
      var code := Pc(f.pc);
      var last := f.pc;
      current := Some(f);
      if fiber.timedOut {
        f := f.(exc := Some(env.timeout));
        code := Exception;
      } else if fiber.status == Waiting {
        match env.checkWaiting(f)
        case StillWaiting =>
          out := RunOut(Suspended(f), Waiting, 0, [], []);
          return;
        case Raised(e) =>
          f := f.(exc := Some(e));
          code := Exception;
        case Ready =>
      }
      ghost var goal := Execution(frame, fiber.status, fiber.timedOut, env, v);
      fiber.status := Running;
      fiber.responded := false;
      var nOps := 0;
      var outbox: seq<Response> := [];
      var unhandled: seq<ExcId> := [];
      var held: Option<Frame> := None;

      while true
        invariant nOps <= 10 && Active(fiber.status) && fiber == frame.fiber && !fiber.responded
        invariant Run(Mach(f, code, last, nOps, fiber.status, outbox, unhandled, held), env, v) == goal
        decreases 10 - nOps, Second(Mach(f, code, last, nOps, fiber.status, outbox, unhandled, held)), Rank(code)
      {
        var r := StepOnce(Mach(f, code, last, nOps, fiber.status, outbox, unhandled, held), env, v);
        if r.Stopped? {
          fiber.status := r.out.status;
          current := CurrentOnExit(r.out.exit);
          return r.out;
        }
        f, code, last, nOps, outbox, unhandled, held := r.m.frame, r.m.code, r.m.last, r.m.nOps, r.m.outbox, r.m.unhandled, r.m.held;
        fiber.status := r.m.status;
      }
    }
  }
}
