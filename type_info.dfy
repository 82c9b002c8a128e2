/**
 * The flattened information about a type: its call chains and how it
 * contributes them to a deriving type, its op and auto-conversion
 * methods, and the caches it keeps of those.
 */
module TypeInfos {
  import opened Base

  // ----- ordered maps of chain entries -----

  /** A chain: an ordered map from an identity to whether it is anchored ("yanked"). */
  type Chain = seq<(nat, bool)>

  function Keys(c: Chain): (r: seq<nat>)
    ensures |r| == |c| && forall i :: 0 <= i < |c| ==> r[i] == c[i].0
  {
    if c == [] then [] else Keys(c[..|c| - 1]) + [c[|c| - 1].0]
  }

  /** No identity appears twice. */
  predicate KeysDistinct(c: Chain) {
    forall i, j :: 0 <= i < j < |c| ==> c[i].0 != c[j].0
  }

  /** The value stored for an identity, if any. */
  function Find(c: Chain, id: nat): (r: Option<bool>)
    ensures r.None? <==> forall i :: 0 <= i < |c| ==> c[i].0 != id
    ensures r.Some? ==> exists i :: 0 <= i < |c| && c[i] == (id, r.value)
  {
    if c == [] then None
    else if c[|c| - 1].0 == id && Find(c[..|c| - 1], id).None? then Some(c[|c| - 1].1)
    else
      Find(c[..|c| - 1], id)
  }

  /** In a chain of distinct identities, the entry of an identity is the one stored for it. */
  lemma FindDistinct(c: Chain, i: nat)
    requires KeysDistinct(c) && i < |c|
    ensures Find(c, c[i].0) == Some(c[i].1)
  {
    var r := Find(c, c[i].0);
    var j :| 0 <= j < |c| && c[j] == (c[i].0, r.value);
    assert i == j;
  }

  /** The chain without the identity. */
  function Without(c: Chain, id: nat): (r: Chain)
    ensures forall e :: e in r <==> e in c && e.0 != id
    ensures |r| <= |c|
  {
    if c == [] then [] else Without(c[..|c| - 1], id) + (if c[|c| - 1].0 == id then [] else [c[|c| - 1]])
  }

  lemma {:induction false} WithoutDistinct(c: Chain, id: nat)
    requires KeysDistinct(c)
    ensures KeysDistinct(Without(c, id))
  {
    if c != [] {
      var p := c[..|c| - 1];
      assert KeysDistinct(p) by {
        forall i, j | 0 <= i < j < |p|
          ensures p[i].0 != p[j].0
        {
          assert p[i] == c[i] && p[j] == c[j];
        }
      }
      WithoutDistinct(p, id);
      var w := Without(p, id);
      var last := c[|c| - 1];
      forall e | e in w
        ensures e.0 != last.0
      {
        var k :| 0 <= k < |p| && p[k] == e;
        assert c[k] == e;
      }
    }
  }

  /**
   * One entry of a contributing chain: an absent identity is added at the
   * end, one stored as not anchored moves to the end with the new value,
   * and an anchored one stays where and as it is.
   */
  function ContributeOne(c: Chain, id: nat, yank: bool, annotation: bool): Chain {
    match Find(c, id)
    case None => c + [(id, annotation && yank)]
    case Some(anchored) => if anchored then c else Without(c, id) + [(id, annotation && yank)]
  }

  /** The class chain after every entry of `mine`, in order, is contributed. */
  function ClassMerged(c: Chain, mine: Chain, annotation: bool): Chain {
    if mine == [] then c
    else
      var e := mine[|mine| - 1];
      ContributeOne(ClassMerged(c, mine[..|mine| - 1], annotation), e.0, e.1, annotation)
  }

  /** `putIfAbsent(id, true)`. */
  function PutIfAbsent(d: Chain, id: nat): Chain {
    if Find(d, id).Some? then d else d + [(id, true)]
  }

  /** The default chain after the identities of `mine`, in order, are added where absent. */
  function DefaultMerged(d: Chain, mine: Chain): Chain {
    if mine == [] then d else PutIfAbsent(DefaultMerged(d, mine[..|mine| - 1]), mine[|mine| - 1].0)
  }

  lemma FindSnoc(c: Chain, e: (nat, bool), other: nat)
    requires e.0 != other
    ensures Find(c + [e], other) == Find(c, other)
  {
    assert (c + [e])[..|c|] == c;
  }

  /** Removing one identity leaves what is stored for the others. */
  lemma {:induction false} FindWithout(c: Chain, id: nat, other: nat)
    requires other != id
    ensures Find(Without(c, id), other) == Find(c, other)
  {
    if c != [] {
      var p := c[..|c| - 1];
      var e := c[|c| - 1];
      FindWithout(p, id, other);
      if e.0 == id {
        assert Without(c, id) == Without(p, id);
      } else {
        assert Without(c, id) == Without(p, id) + [e];
        var w := Without(p, id);
        assert (w + [e])[..|w|] == w;
      }
    }
  }

  /** An entry whose identity is not `id` keeps its value when `id` is contributed. */
  lemma ContributeOneOthers(c: Chain, id: nat, yank: bool, annotation: bool, other: nat)
    requires other != id
    ensures Find(ContributeOne(c, id, yank, annotation), other) == Find(c, other)
  {
    var v := annotation && yank;
    match Find(c, id)
    case None =>
      FindSnoc(c, (id, v), other);
    case Some(anchored) =>
      if !anchored {
        FindSnoc(Without(c, id), (id, v), other);
        FindWithout(c, id, other);
      }
  }

  /**
   * What contributing one entry promises: the identity ends up stored,
   * with its old value when anchored and the new one otherwise (then as
   * the last entry); every other entry keeps its relative order, and the
   * identities stay distinct.
   */
  lemma ContributeOneOutcome(c: Chain, id: nat, yank: bool, annotation: bool)
    requires KeysDistinct(c)
    ensures var r := ContributeOne(c, id, yank, annotation);
            && KeysDistinct(r)
            && Find(r, id) == (if Find(c, id) == Some(true) then Some(true) else Some(annotation && yank))
            && Without(r, id) == Without(c, id)
            && (Find(c, id) == Some(true) ==> r == c)
            && (Find(c, id) != Some(true) ==> r[|r| - 1] == (id, annotation && yank))
  {
    var r := ContributeOne(c, id, yank, annotation);
    var v := annotation && yank;
    match Find(c, id)
    case None =>
      WithoutSnoc(c, (id, v), id);
      WithoutAbsent(c, id);
      FindDistinctSnoc(c, id, v);
    case Some(anchored) =>
      if !anchored {
        WithoutDistinct(c, id);
        var w := Without(c, id);
        assert Find(w, id).None?;
        WithoutSnoc(w, (id, v), id);
        WithoutTwice(c, id);
        FindDistinctSnoc(w, id, v);
      }
  }

  lemma {:induction false} WithoutSnoc(c: Chain, e: (nat, bool), id: nat)
    ensures Without(c + [e], id) == Without(c, id) + (if e.0 == id then [] else [e])
  {
    assert (c + [e])[..|c|] == c;
  }

  lemma {:induction false} WithoutAbsent(c: Chain, id: nat)
    requires Find(c, id).None?
    ensures Without(c, id) == c
  {
    if c != [] {
      WithoutAbsent(c[..|c| - 1], id);
      assert c == c[..|c| - 1] + [c[|c| - 1]];
    }
  }

  lemma WithoutTwice(c: Chain, id: nat)
    ensures Without(Without(c, id), id) == Without(c, id)
  {
    WithoutAbsent(Without(c, id), id);
  }

  /** Adding an absent identity at the end keeps the identities distinct and stores the value. */
  lemma FindDistinctSnoc(c: Chain, id: nat, v: bool)
    requires KeysDistinct(c) && Find(c, id).None?
    ensures KeysDistinct(c + [(id, v)]) && Find(c + [(id, v)], id) == Some(v)
  {
    assert (c + [(id, v)])[..|c|] == c;
  }

  /**
   * What contributing a whole class chain promises: the identities stay
   * distinct, the stored identities are the old ones and those of `mine`,
   * anchored entries keep their value, and identities `mine` does not
   * name keep theirs.
   */
  lemma {:induction false} ClassMergedOutcome(c: Chain, mine: Chain, annotation: bool, id: nat)
    requires KeysDistinct(c)
    ensures var r := ClassMerged(c, mine, annotation);
            && KeysDistinct(r)
            && (Find(r, id).Some? <==> Find(c, id).Some? || id in Keys(mine))
            && (Find(c, id) == Some(true) ==> Find(r, id) == Some(true))
            && (id !in Keys(mine) ==> Find(r, id) == Find(c, id))
  {
    if mine != [] {
      var p := mine[..|mine| - 1];
      var e := mine[|mine| - 1];
      ClassMergedOutcome(c, p, annotation, id);
      var m := ClassMerged(c, p, annotation);
      ContributeOneOutcome(m, e.0, e.1, annotation);
      if e.0 != id {
        ContributeOneOthers(m, e.0, e.1, annotation, id);
      }
      assert Keys(mine) == Keys(p) + [e.0];
    }
  }

  /**
   * What contributing a default chain promises: the old entries keep their
   * positions and values, every identity of `mine` is stored, each new
   * entry is anchored, and the identities stay distinct.
   */
  lemma {:induction false} DefaultMergedOutcome(d: Chain, mine: Chain)
    requires KeysDistinct(d)
    ensures var r := DefaultMerged(d, mine);
            && KeysDistinct(r)
            && |r| >= |d| && r[..|d|] == d
            && (forall i :: |d| <= i < |r| ==> r[i].1)
            && (forall i :: 0 <= i < |mine| ==> Find(r, mine[i].0).Some?)
  {
    if mine != [] {
      var p := mine[..|mine| - 1];
      var id := mine[|mine| - 1].0;
      DefaultMergedOutcome(d, p);
      var m := DefaultMerged(d, p);
      PutIfAbsentOutcome(m, id);
      var r := PutIfAbsent(m, id);
      assert r == DefaultMerged(d, mine);
      assert r[..|d|] == r[..|m|][..|d|];
      forall i | |d| <= i < |r|
        ensures r[i].1
      {
        if i < |m| {
          assert r[i] == r[..|m|][i];
        }
      }
      forall i | 0 <= i < |mine|
        ensures Find(r, mine[i].0).Some?
      {
        if i < |p| {
          assert mine[i] == p[i];
          PutIfAbsentKeeps(m, id, p[i].0);
        }
      }
    }
  }

  /** `putIfAbsent` keeps the entries and their positions, and adds an anchored entry only for an absent identity. */
  lemma PutIfAbsentOutcome(d: Chain, id: nat)
    requires KeysDistinct(d)
    ensures var r := PutIfAbsent(d, id);
            && KeysDistinct(r) && |r| >= |d| && r[..|d|] == d
            && (forall i :: |d| <= i < |r| ==> r[i].1)
            && Find(r, id).Some?
  {
    if Find(d, id).None? {
      FindDistinctSnoc(d, id, true);
      assert (d + [(id, true)])[..|d|] == d;
    }
  }

  lemma PutIfAbsentKeeps(d: Chain, id: nat, other: nat)
    requires Find(d, other).Some?
    ensures Find(PutIfAbsent(d, id), other).Some?
  {
    if Find(d, id).None? {
      assert id != other;
      FindSnoc(d, (id, true), other);
    }
  }

  /** A ListMap that a deriving type collects its chain in. */
  class ListMap {
    var entries: Chain

    constructor ()
      ensures entries == []
    {
      entries := [];
    }
  }

  // ----- methods of the type -----

  /** A method of the type, with what the op and conversion lookups need of it. */
  datatype MethodInfo = MethodInfo(id: nat, isOp: bool, isAuto: bool, ret: nat)

  /** The methods annotated "@Op". */
  function OpInfos(ms: seq<MethodInfo>): set<MethodInfo> {
    set m | m in ms && m.isOp
  }

  /** The methods annotated "@Auto". */
  function AutoInfos(ms: seq<MethodInfo>): set<MethodInfo> {
    set m | m in ms && m.isAuto
  }

  /** The auto-conversion methods in the order they are visited. */
  function AutoOrder(ms: seq<MethodInfo>): (r: seq<MethodInfo>)
    ensures forall m :: m in r <==> m in AutoInfos(ms)
  {
    if ms == [] then [] else AutoOrder(ms[..|ms| - 1]) + (if ms[|ms| - 1].isAuto then [ms[|ms| - 1]] else [])
  }

  /** The constants of the op methods that match a name, operator and parameter count. */
  function OpMatches(ms: seq<MethodInfo>, name: string, op: string, count: int,
                     matches: (MethodInfo, string, string, int) -> bool): set<nat> {
    set m | m in OpInfos(ms) && matches(m, name, op, count) :: m.id
  }

  // ----- the op-method cache key -----

  function Digit(d: nat): char
    requires d < 10
  {
    "0123456789"[d]
  }

  function DecimalText(n: nat): string
    decreases n
  {
    if n < 10 then [Digit(n)] else DecimalText(n / 10) + [Digit(n % 10)]
  }

  /** Java's decimal text of an int. */
  function IntText(i: int): string {
    if i < 0 then "-" + DecimalText(-i) else DecimalText(i)
  }

  /** The cache key as the source builds it: the name, the operator and the count, joined. */
  function OpKey(name: string, op: string, count: int): string {
    name + op + IntText(count)
  }

  /**
   * `findOpMethods` as written: a query whose joined key equals the cached
   * one is answered from the cache; any other is computed and cached.
   */
  function FoundOpsAsWritten(key: Option<string>, cached: set<nat>, ms: seq<MethodInfo>,
                             name: string, op: string, count: int,
                             matches: (MethodInfo, string, string, int) -> bool): (set<nat>, Option<string>, set<nat>) {
    var k := OpKey(name, op, count);
    if key == Some(k) then (cached, key, cached)
    else var r := OpMatches(ms, name, op, count, matches); (r, Some(k), r)
  }

  /** `findOpMethods` with the cache keyed by the query itself. */
  function FoundOps(query: Option<(string, string, int)>, cached: set<nat>, ms: seq<MethodInfo>,
                    name: string, op: string, count: int,
                    matches: (MethodInfo, string, string, int) -> bool): (set<nat>, Option<(string, string, int)>, set<nat>) {
    if query == Some((name, op, count)) then (cached, query, cached)
    else var r := OpMatches(ms, name, op, count, matches); (r, Some((name, op, count)), r)
  }

  /** With the cache keyed by the query, a cached answer is always the answer computed afresh. */
  lemma FoundOpsSound(query: Option<(string, string, int)>, cached: set<nat>, ms: seq<MethodInfo>,
                      name: string, op: string, count: int,
                      matches: (MethodInfo, string, string, int) -> bool)
    requires query.Some? ==> cached == OpMatches(ms, query.value.0, query.value.1, query.value.2, matches)
    ensures var (r, q, c) := FoundOps(query, cached, ms, name, op, count, matches);
            && r == OpMatches(ms, name, op, count, matches)
            && q == Some((name, op, count)) && c == r
  {
  }

  /**
   * The joined key is not one-to-one: after the query ("a", "+", 11) the
   * query ("a", "+1", 1) finds the same key and is answered with the
   * methods of the first, though no method takes one parameter.
   */
  lemma OpKeyCollides(info: MethodInfo, matches: (MethodInfo, string, string, int) -> bool)
    requires info.isOp && matches(info, "a", "+", 11)
    requires forall n, o, c :: matches(info, n, o, c) ==> c == 11
    ensures OpKey("a", "+", 11) == OpKey("a", "+1", 1)
    ensures var (first, key, cached) := FoundOpsAsWritten(None, {}, [info], "a", "+", 11, matches);
            var (second, _, _) := FoundOpsAsWritten(key, cached, [info], "a", "+1", 1, matches);
            second == {info.id} && OpMatches([info], "a", "+1", 1, matches) == {}
  {
    assert DecimalText(1) == "1";
    assert DecimalText(11) == DecimalText(1) + [Digit(1)];
    assert OpKey("a", "+", 11) == "a+11";
    assert OpKey("a", "+1", 1) == "a+11";
    assert info in OpInfos([info]);
    assert OpMatches([info], "a", "+", 11, matches) == {info.id};
  }

  // ----- auto conversions -----

  /** How the conversion search ended: at an exact match, or with the best match (none when ambiguous). */
  datatype Scan = Exact(m: MethodInfo) | Best(best: Option<MethodInfo>)

  /**
   * The loop of `findConversion` over the conversions: an exact match ends
   * it; a conversion to a subtype of the desired type becomes the match,
   * or replaces it when strictly more specific; two incomparable matches
   * end it with none.
   */
  function ConvScan(autos: seq<MethodInfo>, desired: nat, isA: (nat, nat) -> bool, best: Option<MethodInfo>): (r: Scan)
    ensures r.Exact? ==> r.m in autos && r.m.ret == desired
    ensures r.Best? && r.best.Some? ==> r.best == best || (r.best.value in autos && isA(r.best.value.ret, desired))
  {
    if autos == [] then Best(best)
    else
      var info := autos[0];
      if info.ret == desired then Exact(info)
      else if !isA(info.ret, desired) then ConvScan(autos[1..], desired, isA, best)
      else if best.None? then ConvScan(autos[1..], desired, isA, Some(info))
      else
        var fSub := isA(info.ret, best.value.ret);
        var fSup := isA(best.value.ret, info.ret);
        if fSub != fSup then ConvScan(autos[1..], desired, isA, if fSub then Some(info) else best)
        else Best(None)
  }

  /**
   * What the scan promises: an exact match is a conversion to the desired
   * type; a best match is a visited conversion to a subtype of it; and
   * with no conversion to it or to a subtype, the starting match stays.
   */
  lemma {:induction false} ConvScanSound(autos: seq<MethodInfo>, desired: nat, isA: (nat, nat) -> bool, best: Option<MethodInfo>)
    requires best.Some? ==> isA(best.value.ret, desired)
    ensures match ConvScan(autos, desired, isA, best)
            case Exact(m) => m in autos && m.ret == desired
            case Best(b) => b.Some? ==> (b.value in autos || b == best) && isA(b.value.ret, desired)
    ensures (forall i :: 0 <= i < |autos| ==> autos[i].ret != desired && !isA(autos[i].ret, desired)) ==>
              ConvScan(autos, desired, isA, best) == Best(best)
  {
    if autos != [] {
      var info := autos[0];
      var rest := autos[1..];
      if info.ret != desired {
        if !isA(info.ret, desired) {
          ConvScanSound(rest, desired, isA, best);
        } else if best.None? {
          ConvScanSound(rest, desired, isA, Some(info));
        } else {
          var fSub := isA(info.ret, best.value.ret);
          var fSup := isA(best.value.ret, info.ret);
          if fSub != fSup {
            ConvScanSound(rest, desired, isA, if fSub then Some(info) else best);
          }
        }
      }
    }
  }

  /** The subtype relation is transitive. */
  ghost predicate Transitive(isA: (nat, nat) -> bool) {
    forall x, y, z :: isA(x, y) && isA(y, z) ==> isA(x, z)
  }

  /** The best match `b` is at least as specific as every matching conversion of `autos`. */
  ghost predicate MostSpecific(autos: seq<MethodInfo>, desired: nat, isA: (nat, nat) -> bool, b: MethodInfo) {
    forall a :: a in autos && isA(a.ret, desired) ==> a == b || isA(b.ret, a.ret)
  }

  /**
   * The most specific match wins: for a transitive subtype relation, a best
   * match the scan ends with is a subtype of the starting match and of
   * every conversion to a subtype of the desired type it visited.
   */
  lemma {:induction false} ConvScanMostSpecific(autos: seq<MethodInfo>, desired: nat, isA: (nat, nat) -> bool,
                                                best: Option<MethodInfo>, b: MethodInfo)
    requires Transitive(isA)
    requires best.Some? ==> isA(best.value.ret, desired)
    requires ConvScan(autos, desired, isA, best) == Best(Some(b))
    ensures best.Some? ==> b == best.value || isA(b.ret, best.value.ret)
    ensures MostSpecific(autos, desired, isA, b)
  {
    if autos == [] {
      return;
    }
    var info := autos[0];
    var rest := autos[1..];
    assert forall a :: a in autos ==> a == info || a in rest;
    if !isA(info.ret, desired) {
      ConvScanMostSpecific(rest, desired, isA, best, b);
    } else if best.None? {
      ConvScanMostSpecific(rest, desired, isA, Some(info), b);
    } else {
      var fSub := isA(info.ret, best.value.ret);
      var fSup := isA(best.value.ret, info.ret);
      ConvScanMostSpecific(rest, desired, isA, if fSub then Some(info) else best, b);
    }
  }

  /**
   * Two matches that make the scan give up: `x` is the starting match or a
   * conversion visited before the `j`-th, both are conversions to subtypes
   * of the desired type, and neither or both are subtypes of each other.
   */
  predicate AmbiguousPair(autos: seq<MethodInfo>, desired: nat, isA: (nat, nat) -> bool,
                          best: Option<MethodInfo>, j: int, x: MethodInfo) {
    && 0 <= j < |autos|
    && (Some(x) == best || x in autos[..j])
    && isA(x.ret, desired) && isA(autos[j].ret, desired)
    && isA(autos[j].ret, x.ret) == isA(x.ret, autos[j].ret)
  }

  /**
   * An ambiguity gives none: when the scan ends with no match although
   * there was one to start with or one among the conversions, it met two
   * matches neither of which is strictly more specific than the other.
   */
  lemma {:induction false} ConvScanAmbiguous(autos: seq<MethodInfo>, desired: nat, isA: (nat, nat) -> bool,
                                             best: Option<MethodInfo>)
    requires best.Some? ==> isA(best.value.ret, desired)
    requires ConvScan(autos, desired, isA, best) == Best(None)
    requires best.Some? || exists a :: a in autos && isA(a.ret, desired)
    ensures exists j, x :: AmbiguousPair(autos, desired, isA, best, j, x)
  {
    if autos == [] {
      return;
    }
    var info := autos[0];
    var rest := autos[1..];
    assert forall a :: a in autos ==> a == info || a in rest;
    var best' := best;
    if !isA(info.ret, desired) {
    } else if best.None? {
      best' := Some(info);
    } else {
      var fSub := isA(info.ret, best.value.ret);
      var fSup := isA(best.value.ret, info.ret);
      if fSub == fSup {
        assert AmbiguousPair(autos, desired, isA, best, 0, best.value);
        return;
      }
      best' := if fSub then Some(info) else best;
    }
    ConvScanAmbiguous(rest, desired, isA, best');
    var j', x :| AmbiguousPair(rest, desired, isA, best', j', x);
    assert autos[j' + 1] == rest[j'];
    assert rest[..j'] == autos[1..j' + 1];
    assert autos[..j' + 1] == [info] + autos[1..j' + 1];
    assert AmbiguousPair(autos, desired, isA, best, j' + 1, x);
  }

  /** The first conversion to exactly the desired type. */
  function FirstExact(autos: seq<MethodInfo>, desired: nat): (r: Option<MethodInfo>)
    ensures r.Some? ==> r.value in autos && r.value.ret == desired
    ensures r.None? <==> forall i :: 0 <= i < |autos| ==> autos[i].ret != desired
  {
    if autos == [] then None
    else if autos[0].ret == desired then Some(autos[0])
    else
      var r := FirstExact(autos[1..], desired);
      assert r.None? ==> forall i :: 1 <= i < |autos| ==> autos[i].ret != desired by {
        if r.None? {
          forall i | 1 <= i < |autos|
            ensures autos[i].ret != desired
          {
            assert autos[i] == autos[1..][i - 1];
          }
        }
      }
      r
  }

  /** The cached conversion: the desired type and the method found for it. */
  datatype ConvCache = ConvCache(typeAuto: Option<nat>, methodAuto: Option<nat>)

  function Id(m: Option<MethodInfo>): Option<nat> {
    if m.None? then None else Some(m.value.id)
  }

  /**
   * `findConversion`: a cached answer for the same desired type; otherwise
   * the scan, whose exact match is returned uncached and whose best match
   * (possibly none) is cached. As written, an ambiguity met first hides an
   * exact match visited later; the corrected search looks for an exact
   * match first.
   */
  function Conversion(autos: seq<MethodInfo>, cache: ConvCache, desired: nat, isA: (nat, nat) -> bool,
                      variant: Variant): (r: (Option<nat>, ConvCache))
    ensures cache.typeAuto == Some(desired) ==> r == (cache.methodAuto, cache)
    ensures r.1 == cache || r.1 == ConvCache(Some(desired), r.0)
  {
    if cache.typeAuto == Some(desired) then (cache.methodAuto, cache)
    else if variant == Corrected && FirstExact(autos, desired).Some? then (Id(FirstExact(autos, desired)), cache)
    else
      match ConvScan(autos, desired, isA, None)
      case Exact(m) => (Some(m.id), cache)
      case Best(b) => (Id(b), ConvCache(Some(desired), Id(b)))
  }

  /** A cache is coherent when its answer is what the search computes for its type. */
  predicate CacheCoherent(autos: seq<MethodInfo>, cache: ConvCache, isA: (nat, nat) -> bool, variant: Variant) {
    cache.typeAuto.Some? ==> cache.methodAuto == Conversion(autos, ConvCache(None, None), cache.typeAuto.value, isA, variant).0
  }

  /** From a coherent cache, the answer is the one computed afresh, and the cache stays coherent. */
  lemma ConversionCached(autos: seq<MethodInfo>, cache: ConvCache, desired: nat, isA: (nat, nat) -> bool, variant: Variant)
    requires CacheCoherent(autos, cache, isA, variant)
    ensures var (r, c) := Conversion(autos, cache, desired, isA, variant);
            && r == Conversion(autos, ConvCache(None, None), desired, isA, variant).0
            && CacheCoherent(autos, c, isA, variant)
  {
  }

  /** The corrected search returns a conversion to exactly the desired type whenever there is one. */
  lemma CorrectedPrefersExact(autos: seq<MethodInfo>, desired: nat, isA: (nat, nat) -> bool, k: nat)
    requires k < |autos| && autos[k].ret == desired
    ensures var r := Conversion(autos, ConvCache(None, None), desired, isA, Corrected).0;
            r.Some? && exists m :: m in autos && m.id == r.value && m.ret == desired
  {
    var e := FirstExact(autos, desired);
    assert e.Some?;
    assert e.value in autos && e.value.id == Id(e).value;
  }

  /** Every answer of the corrected search names a conversion to a subtype of the desired type (or to it). */
  lemma ConversionSound(autos: seq<MethodInfo>, desired: nat, isA: (nat, nat) -> bool)
    ensures var r := Conversion(autos, ConvCache(None, None), desired, isA, Corrected).0;
            r.Some? ==> exists m :: m in autos && m.id == r.value && (m.ret == desired || isA(m.ret, desired))
  {
    ConvScanSound(autos, desired, isA, None);
    var e := FirstExact(autos, desired);
    if e.Some? {
      assert e.value in autos && e.value.id == Id(e).value;
    } else {
      match ConvScan(autos, desired, isA, None)
      case Exact(m) =>
        assert false;
      case Best(b) =>
        if b.Some? {
          assert b.value in autos && b.value.id == Id(b).value;
        }
    }
  }

  /**
   * `findConversion`'s promise, in either variant: an answer is a conversion
   * to exactly the desired type or the most specific conversion to a
   * subtype of it; no answer, although some conversion matches, means two
   * matches were ambiguous (and, corrected, that none matches exactly).
   */
  lemma ConversionMostSpecific(autos: seq<MethodInfo>, desired: nat, isA: (nat, nat) -> bool, v: Variant)
    requires Transitive(isA)
    ensures var r := Conversion(autos, ConvCache(None, None), desired, isA, v).0;
            (r.Some? ==> exists m :: m in autos && m.id == r.value &&
                           (m.ret == desired || (isA(m.ret, desired) && MostSpecific(autos, desired, isA, m)))) &&
            (r.None? && (exists a :: a in autos && isA(a.ret, desired)) ==>
               exists j, x :: AmbiguousPair(autos, desired, isA, None, j, x)) &&
            (v == Corrected && r.None? ==> FirstExact(autos, desired).None?)
  {
    var e := FirstExact(autos, desired);
    if v == Corrected && e.Some? {
      assert e.value in autos && e.value.id == Id(e).value;
    } else {
      ConvScanSound(autos, desired, isA, None);
      match ConvScan(autos, desired, isA, None)
      case Exact(m) =>
      case Best(b) =>
        if b.Some? {
          ConvScanMostSpecific(autos, desired, isA, None, b.value);
          assert b.value in autos && b.value.id == Id(b).value;
        } else if exists a :: a in autos && isA(a.ret, desired) {
          ConvScanAmbiguous(autos, desired, isA, None);
        }
    }
  }

  function Incomparable(x: nat, y: nat): bool {
    x == y || y == 0
  }

  /**
   * The search as written depends on the visiting order: with two
   * incomparable conversions to subtypes visited before a conversion to
   * exactly the desired type, it finds none; visited first, the exact one
   * is found.
   */
  lemma ExactHiddenByAmbiguity()
    ensures var a := MethodInfo(1, false, true, 1);
            var b := MethodInfo(2, false, true, 2);
            var c := MethodInfo(3, false, true, 0);
            && Conversion([a, b, c], ConvCache(None, None), 0, Incomparable, AsWritten).0 == None
            && Conversion([c, a, b], ConvCache(None, None), 0, Incomparable, AsWritten).0 == Some(3)
            && Conversion([a, b, c], ConvCache(None, None), 0, Incomparable, Corrected).0 == Some(3)
  {
    var a := MethodInfo(1, false, true, 1);
    var b := MethodInfo(2, false, true, 2);
    var c := MethodInfo(3, false, true, 0);
    assert [a, b, c][1..] == [b, c] && [b, c][1..] == [c];
    assert ConvScan([a, b, c], 0, Incomparable, None) == ConvScan([b, c], 0, Incomparable, Some(a));
    assert ConvScan([b, c], 0, Incomparable, Some(a)) == Best(None);
    assert FirstExact([a, b, c], 0) == Some(c) by {
      assert FirstExact([b, c], 0) == FirstExact([c], 0);
    }
  }

  // ----- the type info -----

  /** A resolver of the type's generic parameters, reporting to an error list. */
  class TypeResolver {
    const params: map<string, nat>
    const errs: nat

    constructor (params: map<string, nat>, errs: nat)
      ensures this.params == params && this.errs == errs
    {
      this.params := params;
      this.errs := errs;
    }
  }

  class TypeInfo {
    const typeParams: map<string, nat>
    const classChain: Chain
    const defaultChain: Chain
    /** The methods, in the order the method map visits them. */
    const methods: seq<MethodInfo>
    var resolver: TypeResolver?
    var setOps: Option<set<MethodInfo>>
    var setAuto: Option<set<MethodInfo>>
    var opQuery: Option<(string, string, int)>
    var setOp: set<nat>
    var conv: ConvCache

    /** The caches hold what the lookups compute. */
    ghost predicate Valid(matches: (MethodInfo, string, string, int) -> bool, isA: (nat, nat) -> bool)
      reads this
    {
      && OpsCached()
      && (setAuto.Some? ==> setAuto.value == AutoInfos(methods))
      && (opQuery.Some? ==> setOp == OpMatches(methods, opQuery.value.0, opQuery.value.1, opQuery.value.2, matches))
      && CacheCoherent(AutoOrder(methods), conv, isA, Corrected)
    }

    constructor (typeParams: map<string, nat>, classChain: Chain, defaultChain: Chain, methods: seq<MethodInfo>)
      ensures this.typeParams == typeParams && this.classChain == classChain
      ensures this.defaultChain == defaultChain && this.methods == methods
      ensures resolver == null && setOps.None? && setAuto.None? && opQuery.None? && conv == ConvCache(None, None)
      ensures forall matches, isA :: Valid(matches, isA)
    {
      this.typeParams := typeParams;
      this.classChain := classChain;
      this.defaultChain := defaultChain;
      this.methods := methods;
      resolver, setOps, setAuto, opQuery, setOp, conv := null, None, None, None, {}, ConvCache(None, None);
    }

    /** `ensureTypeResolver`: the cached resolver when it reports to the same error list, else a new one that is cached. */
    method EnsureTypeResolver(errs: nat) returns (r: TypeResolver)
      modifies this`resolver
      ensures resolver == r && r.errs == errs && r.params == typeParams
      ensures old(resolver) != null && old(resolver).errs == errs && old(resolver).params == typeParams ==> r == old(resolver)
      ensures old(resolver) == null || old(resolver).errs != errs ==> fresh(r)
    {
      if resolver != null && resolver.errs == errs && resolver.params == typeParams {
        return resolver;
      }
      r := new TypeResolver(typeParams, errs);
      resolver := r;
    }

    /**
     * `contributeChains`: each class-chain entry of this type is merged
     * into the deriving type's class chain, then this type's default
     * identities are added to its default chain where absent.
     */
    method ContributeChains(classes: ListMap, defaults: ListMap, annotation: bool)
      modifies classes, defaults
      ensures classes != defaults ==>
                classes.entries == ClassMerged(old(classes.entries), classChain, annotation) &&
                defaults.entries == DefaultMerged(old(defaults.entries), defaultChain)
      ensures classes == defaults ==>
                classes.entries == DefaultMerged(ClassMerged(old(classes.entries), classChain, annotation), defaultChain)
    {
      var start := classes.entries;
      for i := 0 to |classChain|
        invariant classes.entries == ClassMerged(start, classChain[..i], annotation)
        invariant classes != defaults ==> defaults.entries == old(defaults.entries)
      {
        assert classChain[..i + 1][..i] == classChain[..i];
        var e := classChain[i];
        classes.entries := ContributeOne(classes.entries, e.0, e.1, annotation);
      }
      assert classChain[..|classChain|] == classChain;
      var mid := classes.entries;
      var base := defaults.entries;
      for i := 0 to |defaultChain|
        invariant defaults.entries == DefaultMerged(base, defaultChain[..i])
        invariant classes != defaults ==> classes.entries == mid
      {
        assert defaultChain[..i + 1][..i] == defaultChain[..i];
        defaults.entries := PutIfAbsent(defaults.entries, defaultChain[i].0);
      }
      assert defaultChain[..|defaultChain|] == defaultChain;
    }

    /** The cached op methods are the methods annotated "@Op". */
    predicate OpsCached()
      reads this
    {
      setOps.Some? ==> setOps.value == OpInfos(methods)
    }

    /** `getOpMethodInfos`: the methods annotated "@Op", computed once and cached. */
    method GetOpMethodInfos() returns (r: set<MethodInfo>)
      modifies this`setOps
      ensures old(setOps).Some? ==> r == old(setOps).value
      ensures old(setOps).None? ==> r == OpInfos(methods)
      ensures setOps == Some(r)
      ensures old(OpsCached()) ==> OpsCached()
      ensures forall matches, isA :: old(Valid(matches, isA)) ==> Valid(matches, isA)
    {
      if setOps.Some? {
        return setOps.value;
      }
      r := {};
      for i := 0 to |methods|
        invariant r == OpInfos(methods[..i])
      {
        assert methods[..i + 1] == methods[..i] + [methods[i]];
        if methods[i].isOp {
          r := r + {methods[i]};
        }
      }
      assert methods[..|methods|] == methods;
      setOps := Some(r);
    }

    /** `getAutoMethodInfos`: the methods annotated "@Auto", computed once and cached. */
    method GetAutoMethodInfos() returns (r: set<MethodInfo>)
      modifies this`setAuto
      ensures old(setAuto).Some? ==> r == old(setAuto).value
      ensures old(setAuto).None? ==> r == AutoInfos(methods)
      ensures setAuto == Some(r)
      ensures forall matches, isA :: old(Valid(matches, isA)) ==> Valid(matches, isA)
    {
      if setAuto.Some? {
        return setAuto.value;
      }
      r := {};
      for i := 0 to |methods|
        invariant r == AutoInfos(methods[..i])
      {
        assert methods[..i + 1] == methods[..i] + [methods[i]];
        if methods[i].isAuto {
          r := r + {methods[i]};
        }
      }
      assert methods[..|methods|] == methods;
      setAuto := Some(r);
    }

    /** `findOpMethods`, with the cache keyed by the whole query. */
    method FindOpMethods(name: string, op: string, count: int, matches: (MethodInfo, string, string, int) -> bool)
      returns (r: set<nat>)
      requires OpsCached()
      modifies this`opQuery, this`setOp, this`setOps
      ensures var (res, q, c) := FoundOps(old(opQuery), old(setOp), methods, name, op, count, matches);
              r == res && opQuery == q && setOp == c
      ensures old(setOps).Some? ==> setOps == old(setOps)
      ensures forall isA :: old(Valid(matches, isA)) ==> Valid(matches, isA)
      ensures old(setOps).None? && old(opQuery) != Some((name, op, count)) ==> setOps == Some(OpInfos(methods))
    {
      if opQuery == Some((name, op, count)) {
        return setOp;
      }
      var infos := GetOpMethodInfos();
      var ms := OpInfosSeq(methods, infos);
      r := {};
      for i := 0 to |ms|
        invariant r == set m | m in ms[..i] && matches(m, name, op, count) :: m.id
      {
        assert ms[..i + 1] == ms[..i] + [ms[i]];
        if matches(ms[i], name, op, count) {
          r := r + {ms[i].id};
        }
      }
      assert ms[..|ms|] == ms;
      opQuery := Some((name, op, count));
      setOp := r;
    }

    /** `findConversion`, corrected to prefer an exact match whatever the visiting order. */
    method FindConversion(desired: nat, isA: (nat, nat) -> bool) returns (r: Option<nat>)
      modifies this`conv
      ensures (r, conv) == Conversion(AutoOrder(methods), old(conv), desired, isA, Corrected)
      ensures forall matches :: old(Valid(matches, isA)) ==> Valid(matches, isA)
    {
      if conv.typeAuto == Some(desired) {
        return conv.methodAuto;
      }
      var autos := AutoOrder(methods);
      for i := 0 to |autos|
        invariant FirstExact(autos, desired) == FirstExact(autos[i..], desired)
      {
        assert autos[i..][1..] == autos[i + 1..];
        if autos[i].ret == desired {
          return Some(autos[i].id);
        }
      }
      assert autos[|autos|..] == [];
      var s := ScanConversions(autos, desired, isA);
      match s
      case Exact(m) =>
        r := Some(m.id);
      case Best(b) =>
        r := Id(b);
        conv := ConvCache(Some(desired), r);
    }
  }

  /** The op methods in the order they are visited. */
  method OpInfosSeq(ms: seq<MethodInfo>, infos: set<MethodInfo>) returns (r: seq<MethodInfo>)
    requires infos == OpInfos(ms)
    ensures forall m :: m in r <==> m in infos
  {
    r := [];
    for i := 0 to |ms|
      invariant forall m :: m in r <==> m in ms[..i] && m.isOp
    {
      assert ms[..i + 1] == ms[..i] + [ms[i]];
      if ms[i].isOp {
        r := r + [ms[i]];
      }
    }
    assert ms[..|ms|] == ms;
  }

  /** The loop of `findConversion`, with its early exits. */
  method ScanConversions(autos: seq<MethodInfo>, desired: nat, isA: (nat, nat) -> bool) returns (s: Scan)
    ensures s == ConvScan(autos, desired, isA, None)
  {
    var best: Option<MethodInfo> := None;
    for i := 0 to |autos|
      invariant ConvScan(autos, desired, isA, None) == ConvScan(autos[i..], desired, isA, best)
    {
      assert autos[i..][1..] == autos[i + 1..];
      var info := autos[i];
      if info.ret == desired {
        return Exact(info);
      }
      if isA(info.ret, desired) {
        if best.None? {
          best := Some(info);
        } else {
          var fSub := isA(info.ret, best.value.ret);
          var fSup := isA(best.value.ret, info.ret);
          if fSub != fSup {
            best := if fSub then Some(info) else best;
          } else {
            return Best(None);
          }
        }
      }
    }
    assert autos[|autos|..] == [];
    s := Best(best);
  }
}
