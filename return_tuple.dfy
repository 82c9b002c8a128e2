/**
 * RETURN_T: return from a frame whose result is held in a tuple register.
 * How the tuple goes back depends on how the caller asked for results
 * (the frame's return index): not at all, spread over several caller
 * registers, or as the tuple itself.
 */
module ReturnTuple {
  import opened Base
  import opened Protocol

  /**
   * The special return indices a frame may carry.  The frame class defining
   * them is not part of this model; the model fixes distinct negative values
   * for them, and any return index below them stands for "return into slot
   * -iRet-1 as is".
   */
  const RET_LOCAL: int := -65000
  const RET_UNUSED: int := -65001
  const RET_MULTI: int := -65002

  /** What the frame gives for the tuple register. */
  datatype TupleArg = Missing | Wrapped(exc: ExcId) | Tuple(values: seq<Handle>) | NotATuple

  /** One call of the caller's `assignValue(slot, value)`. */
  datatype Assignment = Assignment(slot: int, value: Handle)

  /** The op's answer: a control code, or `frame.returnValue(index, register)` for the as-is case. */
  datatype Answer = Answer(ctl: Ctl) | PassAsIs(index: int, register: int)

  /**
   * The outcome of `process`: the answer or a thrown exception, the
   * exception stored into the frame (if any), and the assignments made into
   * the caller's registers, in order.
   */
  datatype Outcome = Outcome(result: Result<Answer>, excSet: Option<ExcId>, writes: seq<Assignment>)

  /** The assignment answers that end the distribution early. */
  predicate Stops(c: Ctl) { c == Exception || c == Block }

  /**
   * The multi-slot distribution from tuple element `i` on: each element goes
   * into the caller slot named by `aiRet`, stopping at the first assignment
   * that answers R_EXCEPTION (return with an exception) or R_BLOCK (illegal).
   */
  function Distribute(aiRet: seq<int>, values: seq<Handle>, assign: (int, Handle) -> Ctl, i: nat): (r: (Result<Answer>, seq<Assignment>))
    requires i <= |aiRet|
    decreases |aiRet| - i
  {
    if i == |aiRet| then (Ok(Answer(Return)), [])
    else if i >= |values| then (Err(OutOfBounds), [])
    else
      var a := Assignment(aiRet[i], values[i]);
      var c := assign(aiRet[i], values[i]);
      if c == Exception then (Ok(Answer(ReturnException)), [a])
      else if c == Block then (Err(IllegalState), [a])
      else var rest := Distribute(aiRet, values, assign, i + 1); (rest.0, [a] + rest.1)
  }

  /**
   * What the distribution does: the assignments are the leading elements in
   * slot order; a plain return means every slot was writes and none of the
   * assignments answered R_EXCEPTION or R_BLOCK; R_RETURN_EXCEPTION means the
   * last assignment made answered R_EXCEPTION and the earlier ones did not.
   */
  lemma DistributeSpec(aiRet: seq<int>, values: seq<Handle>, assign: (int, Handle) -> Ctl, i: nat)
    requires i <= |aiRet|
    ensures var (res, done) := Distribute(aiRet, values, assign, i);
            |done| <= |aiRet| - i && (done != [] ==> i + |done| <= |values|) &&
            (forall k :: 0 <= k < |done| ==> done[k] == Assignment(aiRet[i + k], values[i + k])) &&
            (forall k :: 0 <= k < |done| - 1 ==> !Stops(assign(done[k].slot, done[k].value))) &&
            (res == Ok(Answer(Return)) <==>
               |done| == |aiRet| - i && forall k :: 0 <= k < |done| ==> !Stops(assign(done[k].slot, done[k].value))) &&
            (res == Ok(Answer(ReturnException)) ==> |done| > 0 && assign(done[|done| - 1].slot, done[|done| - 1].value) == Exception)
  {
    DistributeWrites(aiRet, values, assign, i);
    DistributeAnswer(aiRet, values, assign, i);
  }

  /** The assignments of the distribution are the leading elements, each into its slot. */
  lemma {:induction false} DistributeWrites(aiRet: seq<int>, values: seq<Handle>, assign: (int, Handle) -> Ctl, i: nat)
    requires i <= |aiRet|
    ensures var done := Distribute(aiRet, values, assign, i).1;
            |done| <= |aiRet| - i && (done != [] ==> i + |done| <= |values|) &&
            forall k :: 0 <= k < |done| ==> done[k] == Assignment(aiRet[i + k], values[i + k])
    decreases |aiRet| - i
  {
    if i < |aiRet| && i < |values| {
      var a := Assignment(aiRet[i], values[i]);
      var c := assign(aiRet[i], values[i]);
      if c != Exception && c != Block {
        DistributeWrites(aiRet, values, assign, i + 1);
        var rest := Distribute(aiRet, values, assign, i + 1).1;
        var done := [a] + rest;
        var d := Distribute(aiRet, values, assign, i).1;
        assert d == done;
        forall k | 0 <= k < |d|
          ensures d[k] == Assignment(aiRet[i + k], values[i + k])
        {
          if k > 0 {
            assert d[k] == rest[k - 1];
            assert rest[k - 1] == Assignment(aiRet[(i + 1) + (k - 1)], values[(i + 1) + (k - 1)]);
          }
        }

      } else {
        assert Distribute(aiRet, values, assign, i).1 == [a];
      }
    }
  }

  /** How the distribution answers: which assignments stopped it, and when it returns plainly or with an exception. */
  lemma {:induction false} DistributeAnswer(aiRet: seq<int>, values: seq<Handle>, assign: (int, Handle) -> Ctl, i: nat)
    requires i <= |aiRet|
    ensures var (res, done) := Distribute(aiRet, values, assign, i);
            (forall k :: 0 <= k < |done| - 1 ==> !Stops(assign(done[k].slot, done[k].value))) &&
            (res == Ok(Answer(Return)) <==>
               |done| == |aiRet| - i && forall k :: 0 <= k < |done| ==> !Stops(assign(done[k].slot, done[k].value))) &&
            (res == Ok(Answer(ReturnException)) ==> |done| > 0 && assign(done[|done| - 1].slot, done[|done| - 1].value) == Exception)
    decreases |aiRet| - i
  {
    if i < |aiRet| && i < |values| {
      var a := Assignment(aiRet[i], values[i]);
      var c := assign(aiRet[i], values[i]);
      assert assign(a.slot, a.value) == c;
      if c != Exception && c != Block {
        DistributeAnswer(aiRet, values, assign, i + 1);
        var rest := Distribute(aiRet, values, assign, i + 1);
        var done := [a] + rest.1;
        assert Distribute(aiRet, values, assign, i) == (rest.0, done);
        assert done[0] == a;
        forall k | 1 <= k < |done|
          ensures done[k] == rest.1[k - 1]
        {
        }
        if forall k :: 0 <= k < |done| ==> !Stops(assign(done[k].slot, done[k].value)) {
          forall k | 0 <= k < |rest.1| ensures !Stops(assign(rest.1[k].slot, rest.1[k].value)) {
            assert done[k + 1] == rest.1[k];
          }
        }
      } else {
        var done := Distribute(aiRet, values, assign, i).1;
        assert done == [a];
        assert Stops(assign(done[0].slot, done[0].value));
      }
    }
  }

  /** `process` as a function of the frame's return index and what its registers hold. */
  function Process(iRet: int, nArgValue: int, tuple: TupleArg, aiRet: seq<int>, assign: (int, Handle) -> Ctl): (o: Outcome)
    ensures iRet >= 0 || iRet == RET_LOCAL ==> o == Outcome(Err(IllegalState), None, [])
    ensures iRet == RET_UNUSED ==> o == Outcome(Ok(Answer(Return)), None, [])
    ensures iRet == RET_MULTI && tuple.Missing? ==> o == Outcome(Ok(Answer(Repeat)), None, [])
    ensures iRet == RET_MULTI && tuple.Wrapped? ==> o == Outcome(Ok(Answer(Exception)), Some(tuple.exc), [])
    ensures iRet < 0 && iRet !in {RET_LOCAL, RET_UNUSED, RET_MULTI} ==>
              o == Outcome(Ok(PassAsIs(-iRet - 1, nArgValue)), None, [])
    ensures o.writes != [] ==> iRet == RET_MULTI && tuple.Tuple?
  {
    if iRet >= 0 || iRet == RET_LOCAL then Outcome(Err(IllegalState), None, [])
    else if iRet == RET_UNUSED then Outcome(Ok(Answer(Return)), None, [])
    else if iRet == RET_MULTI then
      match tuple
      case Missing => Outcome(Ok(Answer(Repeat)), None, [])
      case Wrapped(e) => Outcome(Ok(Answer(Exception)), Some(e), [])
      case NotATuple => Outcome(Err(ClassCast), None, [])
      case Tuple(values) =>
        var (res, done) := Distribute(aiRet, values, assign, 0);
        Outcome(res, None, done)
    else Outcome(Ok(PassAsIs(-iRet - 1, nArgValue)), None, [])
  }

  /**
   * The loop of `process` for RET_MULTI: assign the tuple's values into the
   * caller's slots one by one, with the early exits of the source.
   */
  method DistributeValues(aiRet: seq<int>, values: seq<Handle>, assign: (int, Handle) -> Ctl)
    returns (res: Result<Answer>, done: seq<Assignment>)
    ensures (res, done) == Distribute(aiRet, values, assign, 0)
    ensures |done| <= |aiRet| && (done != [] ==> |done| <= |values|)
    ensures res == Ok(Answer(Return)) ==> |done| == |aiRet|
  {
    done := [];
    var i := 0;
    assert done + Distribute(aiRet, values, assign, 0).1 == Distribute(aiRet, values, assign, 0).1;
    while i < |aiRet|
      invariant 0 <= i <= |aiRet| && |done| == i && i <= |values|
      invariant Distribute(aiRet, values, assign, 0)
                == (Distribute(aiRet, values, assign, i).0, done + Distribute(aiRet, values, assign, i).1)
    {
      if i >= |values| {
        assert done + [] == done;
        return Err(OutOfBounds), done;
      }
      var a := Assignment(aiRet[i], values[i]);
      var c := assign(aiRet[i], values[i]);
      if c == Exception {
        return Ok(Answer(ReturnException)), done + [a];
      }
      if c == Block {
        return Err(IllegalState), done + [a];
      }
      var rest := Distribute(aiRet, values, assign, i + 1);
      assert done + ([a] + rest.1) == (done + [a]) + rest.1;
      done := done + [a];
      i := i + 1;
    }
    res := Ok(Answer(Return));
    assert done + [] == done;
  }
}
