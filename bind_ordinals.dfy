/**
 * Binding a function's parameters by ordinal (`Function.bind` with a map of
 * parameters to values).  The ordinals name parameters of the original
 * function, but each binding removes one parameter, so an ordinal must be
 * renumbered for the function that the earlier bindings left.
 */
module Binding {
  import opened Base
  import opened Protocol
  import opened Functions

  /** `Integer.MAX_VALUE`, the starting "previous ordinal". */
  const IntMax: int := 0x7fff_ffff

  /**
   * `FunctionHandle.bind`: bind argument `iArg`, which must not be negative.
   * When the handle knows its method, the parameter the argument answers is
   * looked up first (`getParam`), which throws for an index past the
   * method's parameters.
   */
  function Bind(f: Fn, iArg: int, h: Handle, methodKnown: bool, v: Variant): (r: Result<Fn>)
    ensures r.Ok? <==> iArg >= 0 && (methodKnown ==> 0 <= ParamLookup(f, iArg, v) < Underlying(f).params)
    ensures r.Err? ==> r.fault == (if iArg < 0 then IllegalState else OutOfBounds)
    ensures r.Ok? ==> ParamCount(r.value) == ParamCount(f) - 1 && BoundValues(r.value) == [h] + BoundValues(f)
    ensures r.Ok? ==> (WellBound(r.value) <==> iArg < ParamCount(f) && WellBound(f))
  {
    if iArg < 0 then Err(IllegalState)
    else if methodKnown && !(0 <= ParamLookup(f, iArg, v) < Underlying(f).params) then Err(OutOfBounds)
    else Ok(SingleBound(f, iArg, h))
  }

  /**
   * The renumbering as written: an ordinal greater than the one before it
   * is lowered by one; `prev` is the ordinal before the first.
   */
  function AdjustAsWritten(ords: seq<int>, prev: int): (r: seq<int>)
    ensures |r| == |ords|
  {
    if ords == [] then []
    else [if ords[0] > prev then ords[0] - 1 else ords[0]] + AdjustAsWritten(ords[1..], ords[0])
  }

  /** How many elements of `s` are below `x`. */
  function CountLess(s: seq<int>, x: int): (c: nat)
    ensures c <= |s|
  {
    if s == [] then 0 else (if s[0] < x then 1 else 0) + CountLess(s[1..], x)
  }

  /**
   * The renumbering as intended: ordinal `i` is lowered by the number of
   * earlier ordinals below it, which is the number of parameters before it
   * that are gone.
   */
  function AdjustCorrected(ords: seq<int>, i: nat): (r: int)
    requires i < |ords|
    ensures ords[i] - i <= r <= ords[i]
  {
    ords[i] - CountLess(ords[..i], ords[i])
  }

  /** The ordinal the loop passes to `bind` in step `i`. */
  function Adjusted(v: Variant, ords: seq<int>, i: nat): int
    requires i < |ords|
  {
    if v.AsWritten? then AdjustAsWritten(ords, IntMax)[i] else AdjustCorrected(ords, i)
  }

  /**
   * The loop of `invokeBind` from step `i` on, binding to `g`: a value
   * missing from the value array, a negative ordinal or, when the method is
   * known, an ordinal past its parameters throws, which the continuation
   * turns into a raised exception.
   */
  function BindFrom(g: Fn, ords: seq<int>, vals: seq<Handle>, methodKnown: bool, v: Variant, i: nat): Result<Fn>
    requires i <= |ords|
    decreases |ords| - i
  {
    if i == |ords| then Ok(g)
    else if i >= |vals| then Err(OutOfBounds)
    else
      match Bind(g, Adjusted(v, ords, i), vals[i], methodKnown, v)
      case Err(x) => Err(x)
      case Ok(g1) => BindFrom(g1, ords, vals, methodKnown, v, i + 1)
  }

  /** The step of `AdjustAsWritten` at `i` compares with the ordinal before it. */
  lemma {:induction false} AdjustAsWrittenAt(ords: seq<int>, prev: int, i: nat)
    requires i < |ords|
    ensures AdjustAsWritten(ords, prev)[i] ==
              (if ords[i] > (if i == 0 then prev else ords[i - 1]) then ords[i] - 1 else ords[i])
    decreases i
  {
    if i > 0 {
      AdjustAsWrittenAt(ords[1..], ords[0], i - 1);
      assert ords[1..][i - 1] == ords[i];
      if i > 1 {
        assert ords[1..][i - 2] == ords[i - 1];
      }
    }
  }

  /**
   * `invokeBind`'s continuation: bind the values one by one at the
   * renumbered ordinals, remembering the ordinal before.
   */
  method InvokeBind(f: Fn, ords: seq<int>, vals: seq<Handle>, methodKnown: bool, v: Variant) returns (r: Result<Fn>)
    ensures r == BindFrom(f, ords, vals, methodKnown, v, 0)
  {
    var g := f;
    var ixPrev := IntMax;
    var i := 0;
    while i < |ords|
      invariant 0 <= i <= |ords|
      invariant ixPrev == if i == 0 then IntMax else ords[i - 1]
      invariant BindFrom(f, ords, vals, methodKnown, v, 0) == BindFrom(g, ords, vals, methodKnown, v, i)
    {
      var ix := ords[i];
      var adjust := ix > ixPrev;
      ixPrev := ix;
      if v.AsWritten? {
        AdjustAsWrittenAt(ords, IntMax, i);
        if adjust {
          ix := ix - 1;
        }
      } else {
        ix := ix - CountLess(ords[..i], ix);
      }
      if i >= |vals| {
        return Err(OutOfBounds);
      }
      var b := Bind(g, ix, vals[i], methodKnown, v);
      if b.Err? {
        return Err(b.fault);
      }
      g := b.value;
      i := i + 1;
    }
    return Ok(g);
  }

  // ----- the parameters left after each binding -----

  /** Strictly increasing: the parameter indices of a function, in order. */
  predicate Increasing(s: seq<int>) {
    forall a, b :: 0 <= a < b < |s| ==> s[a] < s[b]
  }

  /** The indices `lo..n`. */
  function Range(lo: int, n: int): (r: seq<int>)
    ensures |r| == if lo < n then n - lo else 0
    decreases n - lo
  {
    if lo >= n then [] else [lo] + Range(lo + 1, n)
  }

  /** `s` without the element `x`. */
  function Without(s: seq<int>, x: int): seq<int> {
    if s == [] then [] else (if s[0] == x then [] else [s[0]]) + Without(s[1..], x)
  }

  /**
   * The original parameters of an `n`-parameter function that are left
   * after binding the parameters `p`, in order: parameter `k` of the bound
   * function is original parameter `Unbound(n, p)[k]`.
   */
  function Unbound(n: nat, p: seq<int>): seq<int> {
    if p == [] then Range(0, n) else Without(Unbound(n, p[..|p| - 1]), p[|p| - 1])
  }

  /** No ordinal repeats. */
  predicate Distinct(s: seq<int>) {
    forall a, b :: 0 <= a < b < |s| ==> s[a] != s[b]
  }

  lemma {:induction false} RangeFacts(lo: int, n: int)
    ensures Increasing(Range(lo, n))
    ensures forall y :: y in Range(lo, n) <==> lo <= y < n
    ensures forall y :: lo <= y <= n ==> CountLess(Range(lo, n), y) == y - lo
    decreases n - lo
  {
    if lo < n {
      RangeFacts(lo + 1, n);
      var r := Range(lo, n);
      assert r[1..] == Range(lo + 1, n);
      forall y | lo <= y <= n
        ensures CountLess(r, y) == y - lo
      {
        if y == lo {
          forall k | 0 <= k < |r|
            ensures r[k] >= y
          {
            if k > 0 {
              assert r[k] == Range(lo + 1, n)[k - 1];
              assert r[k] in Range(lo + 1, n);
            }
          }
          NoneBelow(r, y);
        }
      }
    }
  }

  /** Nothing of `s` is below `x` when all its elements are at least `x`. */
  lemma {:induction false} NoneBelow(s: seq<int>, x: int)
    requires forall k :: 0 <= k < |s| ==> s[k] >= x
    ensures CountLess(s, x) == 0
  {
    if s != [] {
      NoneBelow(s[1..], x);
    }
  }

  /** In an increasing sequence, the count of elements below `x` is the index of `x`. */
  lemma {:induction false} IndexByCount(s: seq<int>, x: int)
    requires Increasing(s) && x in s
    ensures CountLess(s, x) < |s| && s[CountLess(s, x)] == x
  {
    if s[0] == x {
      NoneBelow(s[1..], x);
    } else {
      var k :| 0 <= k < |s| && s[k] == x;
      assert s[k - 1 + 1] == x;
      assert s[1..][k - 1] == x;
      IndexByCount(s[1..], x);
    }
  }

  lemma {:induction false} WithoutFacts(s: seq<int>, x: int)
    requires Increasing(s)
    ensures Increasing(Without(s, x))
    ensures forall y :: y in Without(s, x) <==> y in s && y != x
    ensures |Without(s, x)| == |s| - (if x in s then 1 else 0)
    ensures forall y :: CountLess(Without(s, x), y) == CountLess(s, y) - (if x in s && x < y then 1 else 0)
  {
    if s != [] {
      var t := s[1..];
      assert Increasing(t);
      WithoutFacts(t, x);
      assert x in s <==> x == s[0] || x in t;
      if s[0] == x {
        assert x !in t;
        assert Without(s, x) == Without(t, x);
      } else {
        var w := [s[0]] + Without(t, x);
        forall a, b | 0 <= a < b < |w|
          ensures w[a] < w[b]
        {
          if a == 0 {
            assert w[b] in Without(t, x);
          } else {
            assert w[a] == Without(t, x)[a - 1] && w[b] == Without(t, x)[b - 1];
          }
        }
      }
    }
  }

  /** Counting over one more element. */
  lemma {:induction false} CountLessAppend(q: seq<int>, x: int, y: int)
    ensures CountLess(q + [x], y) == CountLess(q, y) + (if x < y then 1 else 0)
  {
    if q != [] {
      assert (q + [x])[1..] == q[1..] + [x];
      CountLessAppend(q[1..], x, y);
    }
  }

  /**
   * After binding the distinct in-range parameters `p`, the parameters left
   * are increasing, are exactly the original ones not in `p`, number
   * `n - |p|`, and below an original index `y` there are `y` minus those of
   * `p` below it.
   */
  lemma {:induction false} UnboundFacts(n: nat, p: seq<int>)
    requires Distinct(p) && forall k :: 0 <= k < |p| ==> 0 <= p[k] < n
    ensures Increasing(Unbound(n, p))
    ensures forall y :: y in Unbound(n, p) <==> 0 <= y < n && y !in p
    ensures |Unbound(n, p)| == n - |p|
    ensures forall y :: 0 <= y <= n ==> CountLess(Unbound(n, p), y) == y - CountLess(p, y)
    decreases |p|
  {
    if p == [] {
      RangeFacts(0, n);
    } else {
      var q := p[..|p| - 1];
      var x := p[|p| - 1];
      assert p == q + [x];
      UnboundFacts(n, q);
      assert x !in q by {
        forall k | 0 <= k < |q|
          ensures q[k] != x
        {
          assert q[k] == p[k];
        }
      }
      WithoutFacts(Unbound(n, q), x);
      forall y | 0 <= y <= n
        ensures CountLess(Unbound(n, p), y) == y - CountLess(p, y)
      {
        CountLessAppend(q, x, y);
      }
    }
  }

  /**
   * The corrected renumbering finds the parameter the ordinal names: in the
   * function the earlier bindings left, parameter `AdjustCorrected(ords, i)`
   * is original parameter `ords[i]`.
   */
  lemma CorrectedFindsParameter(n: nat, ords: seq<int>, i: nat)
    requires Distinct(ords) && forall k :: 0 <= k < |ords| ==> 0 <= ords[k] < n
    requires i < |ords|
    ensures 0 <= AdjustCorrected(ords, i) < |Unbound(n, ords[..i])|
    ensures Unbound(n, ords[..i])[AdjustCorrected(ords, i)] == ords[i]
  {
    PrefixFacts(ords, i, n);
    UnboundAt(n, ords[..i], ords[i]);
    UnboundIndex(n, ords[..i], ords[i]);
  }

  /** The bindings before `i` leave all but `i` of the parameters. */
  lemma {:induction false} PrefixLeaves(n: nat, ords: seq<int>, i: nat)
    requires Distinct(ords) && forall k :: 0 <= k < |ords| ==> 0 <= ords[k] < n
    requires i < |ords|
    ensures |Unbound(n, ords[..i])| == n - i
  {
    PrefixFacts(ords, i, n);
    UnboundFacts(n, ords[..i]);
  }

  /** The ordinals before `i` are distinct, in range, and do not hold ordinal `i`. */
  lemma {:induction false} PrefixFacts(ords: seq<int>, i: nat, n: nat)
    requires Distinct(ords) && forall k :: 0 <= k < |ords| ==> 0 <= ords[k] < n
    requires i < |ords|
    ensures Distinct(ords[..i]) && (forall k :: 0 <= k < |ords[..i]| ==> 0 <= ords[..i][k] < n)
    ensures ords[i] !in ords[..i]
  {
    var p := ords[..i];
    forall k | 0 <= k < |p|
      ensures p[k] == ords[k] && p[k] != ords[i]
    {
    }
  }

  /** Increasing, stated one neighbour at a time. */
  predicate Ascending(s: seq<int>)
    decreases |s|
  {
    |s| < 2 || (s[0] < s[1] && Ascending(s[1..]))
  }

  lemma {:induction false} AscendingIsIncreasing(s: seq<int>)
    requires Ascending(s)
    ensures Increasing(s)
    decreases |s|
  {
    if |s| >= 2 {
      var t := s[1..];
      AscendingIsIncreasing(t);
      forall a, b | 0 <= a < b < |s|
        ensures s[a] < s[b]
      {
        if a == 0 {
          if b > 1 {
            assert t[0] < t[b - 1];
          }
        } else {
          assert t[a - 1] < t[b - 1];
        }
      }
    }
  }

  lemma {:induction false} IncreasingIsAscending(s: seq<int>)
    requires Increasing(s)
    ensures Ascending(s)
    decreases |s|
  {
    if |s| >= 2 {
      var t := s[1..];
      forall a, b | 0 <= a < b < |t|
        ensures t[a] < t[b]
      {
        assert t[a] == s[a + 1] && t[b] == s[b + 1];
      }
      IncreasingIsAscending(t);
    }
  }

  /**
   * For an original parameter `x` that is not bound: the parameters left are
   * ascending, hold `x`, and have `x` minus those of `p` below it before it.
   */
  lemma {:induction false} UnboundAt(n: nat, p: seq<int>, x: int)
    requires Distinct(p) && forall k :: 0 <= k < |p| ==> 0 <= p[k] < n
    requires 0 <= x < n && x !in p
    ensures Ascending(Unbound(n, p)) && x in Unbound(n, p) && CountLess(Unbound(n, p), x) == x - CountLess(p, x)
  {
    UnboundIncreasing(n, p);
    IncreasingIsAscending(Unbound(n, p));
    UnboundHas(n, p, x);
    UnboundCount(n, p, x);
  }

  /** Such a parameter sits, among those left, at the index counting the bound ones below it. */
  lemma {:induction false} UnboundIndex(n: nat, p: seq<int>, x: int)
    requires Ascending(Unbound(n, p)) && x in Unbound(n, p) && CountLess(Unbound(n, p), x) == x - CountLess(p, x)
    ensures 0 <= x - CountLess(p, x) < |Unbound(n, p)|
    ensures Unbound(n, p)[x - CountLess(p, x)] == x
  {
    IndexAt(Unbound(n, p), x, x - CountLess(p, x));
  }

  /** In an ascending sequence holding `x`, `x` sits at the index counting the elements below it. */
  lemma {:induction false} IndexAt(u: seq<int>, x: int, c: int)
    requires Ascending(u) && x in u && CountLess(u, x) == c
    ensures 0 <= c < |u| && u[c] == x
  {
    AscendingIsIncreasing(u);
    IndexByCount(u, x);
  }

  lemma {:induction false} UnboundIncreasing(n: nat, p: seq<int>)
    requires Distinct(p) && forall k :: 0 <= k < |p| ==> 0 <= p[k] < n
    ensures Increasing(Unbound(n, p))
  {
    UnboundFacts(n, p);
  }

  lemma {:induction false} UnboundHas(n: nat, p: seq<int>, x: int)
    requires Distinct(p) && forall k :: 0 <= k < |p| ==> 0 <= p[k] < n
    requires 0 <= x < n && x !in p
    ensures x in Unbound(n, p)
  {
    UnboundFacts(n, p);
  }

  lemma {:induction false} UnboundCount(n: nat, p: seq<int>, x: int)
    requires Distinct(p) && forall k :: 0 <= k < |p| ==> 0 <= p[k] < n
    requires 0 <= x <= n
    ensures CountLess(Unbound(n, p), x) == x - CountLess(p, x)
  {
    UnboundFacts(n, p);
  }

  /**
   * With the corrected renumbering, binding distinct in-range ordinals with
   * enough values succeeds, every binding is within its delegate's
   * parameters, and each removes one parameter.
   */
  lemma {:induction false} CorrectedBindIsWellBound(g: Fn, ords: seq<int>, vals: seq<Handle>, methodKnown: bool, i: nat)
    requires Distinct(ords) && forall k :: 0 <= k < |ords| ==> 0 <= ords[k] < ParamCount(g) + i
    requires i <= |ords| <= |vals|
    requires WellBound(g) && ParamCount(g) + i >= |ords|
    ensures BindFrom(g, ords, vals, methodKnown, Corrected, i).Ok?
    ensures WellBound(BindFrom(g, ords, vals, methodKnown, Corrected, i).value)
    ensures ParamCount(BindFrom(g, ords, vals, methodKnown, Corrected, i).value) == ParamCount(g) + i - |ords|
    decreases |ords| - i
  {
    if i < |ords| {
      var n := ParamCount(g) + i;
      CorrectedFindsParameter(n, ords, i);
      PrefixLeaves(n, ords, i);
      var ix := AdjustCorrected(ords, i);
      ParamIndexInRange(g, ix);
      var g1 := SingleBound(g, ix, vals[i]);
      assert Bind(g, ix, vals[i], methodKnown, Corrected) == Ok(g1);
      CorrectedBindIsWellBound(g1, ords, vals, methodKnown, i + 1);
    }
  }

  /** The as-written renumbering agrees with the intended one for up to two ordinals. */
  lemma TwoOrdinalsAgree(ords: seq<int>, i: nat)
    requires Distinct(ords) && forall k :: 0 <= k < |ords| ==> 0 <= ords[k] <= IntMax
    requires i < |ords| <= 2
    ensures Adjusted(AsWritten, ords, i) == AdjustCorrected(ords, i)
  {
    AdjustAsWrittenAt(ords, IntMax, i);
    if i == 1 {
      assert ords[..1] == [ords[0]];
    }
  }

  /**
   * Three ordinals in order: binding parameters 0, 1 and 2 of a
   * three-parameter function passes ordinals 0, 0 and 1, but after the
   * first two bindings one parameter is left, so the third must be 0.
   */
  lemma ThirdOrdinalMissesParameter(vals: seq<Handle>)
    requires |vals| == 3
    ensures AdjustAsWritten([0, 1, 2], IntMax) == [0, 0, 1]
    ensures Unbound(3, [0, 1]) == [2]
    ensures AdjustCorrected([0, 1, 2], 2) == 0
    ensures BindFrom(Base(3, 3, false), [0, 1, 2], vals, true, AsWritten, 0) == Err(OutOfBounds)
  {
    assert [0, 1, 2][..2] == [0, 1];
    assert [0, 1][..1] == [0];
    assert Range(0, 3) == [0, 1, 2];
    assert Unbound(3, [0]) == Without([0, 1, 2], 0) == [1, 2];
    var b := Base(3, 3, false);
    var g1 := SingleBound(b, 0, vals[0]);
    var g2 := SingleBound(g1, 0, vals[1]);
    AdjustAsWrittenAt([0, 1, 2], IntMax, 0);
    AdjustAsWrittenAt([0, 1, 2], IntMax, 1);
    AdjustAsWrittenAt([0, 1, 2], IntMax, 2);
    assert Bind(b, 0, vals[0], true, AsWritten) == Ok(g1);
    assert Bind(g1, 0, vals[1], true, AsWritten) == Ok(g2);
    assert Shift(g1, 1) == 1;
    assert Shift(g2, 1) == 2;
    assert Bind(g2, 1, vals[2], true, AsWritten) == Err(OutOfBounds);
  }
}
