/**
 * The constant pool of a file structure: every constant is interned once
 * (a later equal constant gives back the registered one), gets the next
 * position, and can be found by its position, by itself, or by its
 * locator.  Registration during assembly counts references, and the pool
 * can then drop the unused constants and renumber the rest.
 */
module Pool {
  import opened Base

  /** A constant, by value: Java constants are equal when their contents are. */
  datatype Const =
    | ModuleC(name: string)
    | PackageC(parent: Const, name: string)
    | ClassC(parent: Const, name: string)
    | MethodC(id: nat)
    | NotC(cond: Const)
    | AnyC(conds: seq<Const>)
    | AllC(conds: seq<Const>)
    | OtherC(format: nat, value: nat)

  /** The constant's format, which selects its lookup maps. */
  datatype Format = ModuleF | PackageF | ClassF | MethodF | NotF | AnyF | AllF | OtherF(n: nat)

  function FormatOf(c: Const): Format {
    match c
    case ModuleC(_) => ModuleF
    case PackageC(_, _) => PackageF
    case ClassC(_, _) => ClassF
    case MethodC(_) => MethodF
    case NotC(_) => NotF
    case AnyC(_) => AnyF
    case AllC(_) => AllF
    case OtherC(f, _) => OtherF(f)
  }

  /** A locator: an optional secondary identity, a module's name or a negation's condition. */
  datatype Loc = NameLoc(s: string) | CondLoc(c: Const)

  /** The key of a constant in the locator maps: its format with its locator, if it has one. */
  function Key(c: Const): Option<(Format, Loc)> {
    match c
    case ModuleC(n) => Some((ModuleF, NameLoc(n)))
    case NotC(x) => Some((NotF, CondLoc(x)))
    case _ => None
  }

  /** What is passed to `register`: null, a constant (with the pool that made it), or a resolvable one. */
  datatype Candidate =
    | NullRef
    | Plain(c: Const, home: nat)
    | Resolvable(resolved: Option<Const>, resolvedHome: nat)

  /**
   * The pool's fields: the constants in position order, each constant's
   * position, its reference count, whether the constant lookup maps exist
   * (and what they hold), the locator maps, and whether registration
   * currently counts references.
   */
  datatype PoolState = PoolState(
    list: seq<Const>,
    position: map<Const, int>,
    refs: map<Const, nat>,
    built: bool,
    lookup: set<Const>,
    locators: map<(Format, Loc), Const>,
    recurse: bool)

  predicate Distinct(s: seq<Const>) {
    forall a, b :: 0 <= a < b < |s| ==> s[a] != s[b]
  }

  /** The constants of a sequence, as a set. */
  function Elements(s: seq<Const>): (r: set<Const>)
    ensures forall x :: x in r <==> x in s
  {
    set x | x in s
  }

  /** The locator map that `ensureLookup` fills from the constants `s`. */
  function LocatorsOf(s: seq<Const>): map<(Format, Loc), Const> {
    if s == [] then map[]
    else
      var m := LocatorsOf(s[..|s| - 1]);
      var c := s[|s| - 1];
      if Key(c).Some? then m[Key(c).value := c] else m
  }

  /**
   * The pool's invariant: no constant twice, each at the position it
   * records, and lookup maps that, once they exist, hold exactly the
   * registered constants and their locators.
   */
  predicate Valid(s: PoolState) {
    Distinct(s.list) && Positioned(s.list, s.position) && LookupsMatch(s)
  }

  /** Each constant is at the position recorded for it. */
  predicate Positioned(l: seq<Const>, position: map<Const, int>) {
    forall i :: 0 <= i < |l| ==> l[i] in position && position[l[i]] == i
  }

  /** The lookup maps, once they exist, hold exactly the registered constants and their locators. */
  predicate LookupsMatch(s: PoolState) {
    && (s.built ==> s.lookup == Elements(s.list) && s.locators == LocatorsOf(s.list))
    && (!s.built ==> s.lookup == {} && s.locators == map[])
  }

  /** A constant's reference count. */
  function RefsOf(s: PoolState, c: Const): nat {
    if c in s.refs then s.refs[c] else 0
  }

  /** `getConstant`: -1 is no constant; otherwise the constant at that position. */
  function GetConstant(s: PoolState, i: int): (r: Result<Option<Const>>)
    ensures i == -1 ==> r == Ok(None)
    ensures r.Err? <==> i != -1 && !(0 <= i < |s.list|)
    ensures r.Ok? && r.value.Some? ==> 0 <= i < |s.list| && r.value.value == s.list[i]
  {
    if i == -1 then Ok(None) else if 0 <= i < |s.list| then Ok(Some(s.list[i])) else Err(OutOfBounds)
  }

  /** `ensureLookup`: build the lookup maps from the constants when they do not exist. */
  function Built(s: PoolState): PoolState {
    if s.built then s
    else s.(built := true, lookup := Elements(s.list), locators := LocatorsOf(s.list))
  }

  /** Append a new constant at the next position and enter it in the lookup maps. */
  function Intern(s: PoolState, c: Const): (r: PoolState)
    ensures r.list == s.list + [c] && c in r.lookup && c in r.position && r.position[c] == |s.list|
    ensures Key(c).Some? ==> Key(c).value in r.locators && r.locators[Key(c).value] == c
  {
    var s1 := s.(position := s.position[c := |s.list|], list := s.list + [c], lookup := s.lookup + {c});
    if Key(c).Some? then s1.(locators := s1.locators[Key(c).value := c]) else s1
  }

  /** During assembly, registering a constant counts one more reference to it. */
  function AddRef(s: PoolState, c: Const): PoolState {
    if s.recurse then s.(refs := s.refs[c := RefsOf(s, c) + 1]) else s
  }

  /**
   * `register` in the pool `self`: null and unresolved constants give
   * null; a resolved one stands for its resolution; an equal registered
   * constant is given back; a new constant from another pool is refused;
   * otherwise the constant is added.
   */
  function Registered(s: PoolState, cand: Candidate, self: nat): (r: (Result<Option<Const>>, PoolState))
    ensures cand.NullRef? || (cand.Resolvable? && cand.resolved.None?) ==> r == (Ok(None), s)
    ensures r.0.Ok? && r.0.value.Some? ==>
              r.0.value.value == (if cand.Plain? then cand.c else cand.resolved.value) && r.0.value.value in r.1.lookup
    ensures r.0.Err? ==> r.0.fault == Unsupported && r.1.list == s.list
  {
    if cand.NullRef? || (cand.Resolvable? && cand.resolved.None?) then (Ok(None), s)
    else
      var c := if cand.Plain? then cand.c else cand.resolved.value;
      var home := if cand.Plain? then cand.home else cand.resolvedHome;
      var s1 := Built(s);
      if c in s1.lookup then (Ok(Some(c)), AddRef(s1, c))
      else if home != self then (Err(Unsupported), s1)
      else (Ok(Some(c)), AddRef(Intern(s1, c), c))
  }

  lemma LocatorsOfAppend(s: seq<Const>, c: Const)
    ensures LocatorsOf(s + [c]) == if Key(c).Some? then LocatorsOf(s)[Key(c).value := c] else LocatorsOf(s)
  {
    assert (s + [c])[..|s|] == s;
  }

  /** Every locator entry names a constant with that very key. */
  lemma {:induction false} LocatorsOfSound(s: seq<Const>)
    ensures forall k :: k in LocatorsOf(s) ==> Key(LocatorsOf(s)[k]) == Some(k)
  {
    if s != [] {
      LocatorsOfSound(s[..|s| - 1]);
    }
  }

  /** A constant is found in a built pool exactly when it is registered. */
  lemma BuiltKeepsValid(s: PoolState)
    requires Valid(s)
    ensures Valid(Built(s)) && Built(s).built && Built(s).list == s.list
    ensures forall c :: c in Built(s).lookup <==> c in s.list
  {
  }

  /** Appending a constant not yet registered to a built pool keeps the invariant. */
  lemma InternKeepsValid(s: PoolState, c: Const)
    requires Valid(s) && s.built && c !in s.list
    ensures Valid(Intern(s, c))
  {
    InternDistinct(s, c);
    InternPositioned(s, c);
    InternLookups(s, c);
  }

  lemma InternDistinct(s: PoolState, c: Const)
    requires Distinct(s.list) && c !in s.list
    ensures Distinct(Intern(s, c).list)
  {
    InternFields(s, c);
    AppendDistinct(s.list, c);
  }

  lemma InternPositioned(s: PoolState, c: Const)
    requires Positioned(s.list, s.position) && c !in s.list
    ensures Positioned(Intern(s, c).list, Intern(s, c).position)
  {
    InternFields(s, c);
    InternPositions(s.list, s.position, c);
  }

  lemma InternLookups(s: PoolState, c: Const)
    requires LookupsMatch(s) && s.built
    ensures LookupsMatch(Intern(s, c))
  {
    InternFields(s, c);
    ElementsAppend(s.list, c);
    LocatorsOfAppend(s.list, c);
  }

  /** What `Intern` changes. */
  lemma InternFields(s: PoolState, c: Const)
    ensures var s2 := Intern(s, c);
            && s2.list == s.list + [c] && s2.position == s.position[c := |s.list|]
            && s2.lookup == s.lookup + {c} && s2.built == s.built
            && s2.locators == (if Key(c).Some? then s.locators[Key(c).value := c] else s.locators)
  {
  }

  /** Recording the next position for a new constant keeps every recorded position. */
  lemma InternPositions(l: seq<Const>, position: map<Const, int>, c: Const)
    requires c !in l && Positioned(l, position)
    ensures Positioned(l + [c], position[c := |l|])
  {
    var l2, p2 := l + [c], position[c := |l|];
    forall i | 0 <= i < |l2|
      ensures l2[i] in p2 && p2[l2[i]] == i
    {
      if i < |l| {
        assert l2[i] == l[i] != c;
      }
    }
  }

  lemma ElementsAppend(s: seq<Const>, c: Const)
    ensures Elements(s + [c]) == Elements(s) + {c}
  {
    assert (s + [c])[..|s|] == s;
  }

  lemma AppendDistinct(s: seq<Const>, c: Const)
    requires Distinct(s) && c !in s
    ensures Distinct(s + [c])
  {
    var s2 := s + [c];
    forall a, b | 0 <= a < b < |s2|
      ensures s2[a] != s2[b]
    {
      if b == |s| {
        assert s2[a] == s[a];
      } else {
        assert s2[a] == s[a] && s2[b] == s[b];
      }
    }
  }

  /** Registration keeps the pool's invariant. */
  lemma RegisterKeepsValid(s: PoolState, cand: Candidate, self: nat)
    requires Valid(s)
    ensures Valid(Registered(s, cand, self).1)
  {
    if !(cand.NullRef? || (cand.Resolvable? && cand.resolved.None?)) {
      var c := if cand.Plain? then cand.c else cand.resolved.value;
      var home := if cand.Plain? then cand.home else cand.resolvedHome;
      BuiltKeepsValid(s);
      var s1 := Built(s);
      if c in s1.lookup {
        AddRefKeepsValid(s1, c);
      } else if home == self {
        InternKeepsValid(s1, c);
        AddRefKeepsValid(Intern(s1, c), c);
      }
    }
  }

  /** Counting a reference changes nothing the invariant reads. */
  lemma AddRefKeepsValid(s: PoolState, c: Const)
    requires Valid(s)
    ensures Valid(AddRef(s, c))
  {
    var s2 := AddRef(s, c);
    assert s2.list == s.list && s2.position == s.position && s2.lookup == s.lookup && s2.locators == s.locators && s2.built == s.built;
  }

  /**
   * What registration gives: nothing for null or unresolved candidates;
   * otherwise the constant, found again at its position; a constant not
   * registered before is appended at the old size and nothing else moves.
   */
  lemma RegisterOutcome(s: PoolState, cand: Candidate, self: nat)
    requires Valid(s)
    ensures var (r, s2) := Registered(s, cand, self);
            (cand.NullRef? || (cand.Resolvable? && cand.resolved.None?) ==> r == Ok(None) && s2 == s) &&
            (r.Ok? && r.value.Some? ==>
               var c := r.value.value;
               c == (if cand.Plain? then cand.c else cand.resolved.value) &&
               c in s2.position && GetConstant(s2, s2.position[c]) == Ok(Some(c)) &&
               (c in s.list ==> s2.list == s.list) &&
               (c !in s.list ==> s2.list == s.list + [c] && s2.position[c] == |s.list|)) &&
            (r.Err? ==> r.fault == Unsupported && s2.list == s.list)
  {
    if !(cand.NullRef? || (cand.Resolvable? && cand.resolved.None?)) {
      var c := if cand.Plain? then cand.c else cand.resolved.value;
      var home := if cand.Plain? then cand.home else cand.resolvedHome;
      BuiltKeepsValid(s);
      var s1 := Built(s);
      if c in s1.lookup {
        var k :| 0 <= k < |s.list| && s.list[k] == c;
        var s2 := AddRef(s1, c);
        assert Registered(s, cand, self) == (Ok(Some(c)), s2);
        assert s2.list == s.list && s2.position == s.position;
        assert s2.position[c] == k;
        assert GetConstant(s2, k) == Ok(Some(c));
      } else if home == self {
        var s2 := AddRef(Intern(s1, c), c);
        assert Registered(s, cand, self) == (Ok(Some(c)), s2);
        assert s2.list == s.list + [c] && s2.position == s.position[c := |s.list|];
        assert s2.list[|s.list|] == c;
        assert GetConstant(s2, |s.list|) == Ok(Some(c));
      } else {
        assert Registered(s, cand, self) == (Err(Unsupported), s1);
      }
    }
  }

  /** Registering a constant of this pool gives that constant back and keeps the pool valid. */
  lemma RegisterOwn(s: PoolState, c: Const, self: nat)
    ensures Registered(s, Plain(c, self), self).0 == Ok(Some(c))
    ensures Valid(s) ==> Valid(Registered(s, Plain(c, self), self).1)
  {
    if Valid(s) {
      RegisterKeepsValid(s, Plain(c, self), self);
    }
  }

  /** Registering a constant already in a built pool only counts the reference. */
  lemma RegisterExisting(s: PoolState, c: Const, home: nat, self: nat)
    requires Valid(s) && s.built && c in s.list
    ensures Registered(s, Plain(c, home), self) == (Ok(Some(c)), AddRef(s, c))
  {
    assert Built(s) == s;
  }

  /** A constant registered without failure is in the list of a built pool. */
  lemma RegisteredIn(s: PoolState, c: Const, home: nat, self: nat)
    requires Valid(s)
    requires Registered(s, Plain(c, home), self).0.Ok?
    ensures Registered(s, Plain(c, home), self).1.built && c in Registered(s, Plain(c, home), self).1.list
  {
    BuiltKeepsValid(s);
    if c !in s.list {
      assert Intern(Built(s), c).list[|s.list|] == c;
    }
  }

  /** Registering the same constant again changes no position and gives it back. */
  lemma RegisterIdempotent(s: PoolState, c: Const, self: nat)
    requires Valid(s)
    requires Registered(s, Plain(c, self), self).0.Ok?
    ensures var s1 := Registered(s, Plain(c, self), self).1;
            var (r2, s2) := Registered(s1, Plain(c, self), self);
            r2 == Ok(Some(c)) && s2.list == s1.list && s2.position == s1.position && s2.lookup == s1.lookup
  {
    RegisteredIn(s, c, self, self);
    RegisterKeepsValid(s, Plain(c, self), self);
    RegisterExisting(Registered(s, Plain(c, self), self).1, c, self, self);
  }

  // ----- conditions -----

  /**
   * `ensureNotCondition`: the negation of a negation is the condition
   * itself; otherwise the negation found by its locator, or a new one.
   */
  function EnsureNot(s: PoolState, cond: Const): (r: Const)
    ensures cond.NotC? ==> r == cond.cond
    ensures !cond.NotC? ==> r == NotC(cond) || r in s.locators.Values
  {
    if cond.NotC? then cond.cond
    else if (NotF, CondLoc(cond)) in s.locators then s.locators[(NotF, CondLoc(cond))]
    else NotC(cond)
  }

  /** In a valid pool the condition found or made is the negation of the condition, and negating twice gives it back. */
  lemma EnsureNotNegates(s: PoolState, cond: Const)
    requires Valid(s)
    ensures !cond.NotC? ==> EnsureNot(s, cond) == NotC(cond)
    ensures cond.NotC? ==> EnsureNot(s, cond) == cond.cond
    ensures !cond.NotC? ==> EnsureNot(s, EnsureNot(s, cond)) == cond
  {
    if s.built {
      LocatorsOfSound(s.list);
    }
  }

  /**
   * `ensureAnyCondition` and `ensureAllCondition`: every condition must be
   * there and there must be at least two; the combination is then
   * registered.
   */
  function CombinedConst(s: PoolState, conds: seq<Option<Const>>, any: bool, self: nat): (Result<Option<Const>>, PoolState) {
    if exists i :: 0 <= i < |conds| && conds[i].None? then (Err(IllegalArgument), s)
    else if |conds| < 2 then (Err(IllegalArgument), s)
    else
      var cs := seq(|conds|, i requires 0 <= i < |conds| => conds[i].value);
      Registered(s, Plain(if any then AnyC(cs) else AllC(cs), self), self)
  }

  /** A combination of fewer than two conditions is refused without touching the pool; otherwise it is interned. */
  lemma EnsureCombinedOutcome(s: PoolState, conds: seq<Option<Const>>, any: bool, self: nat)
    requires Valid(s)
    ensures |conds| < 2 ==> CombinedConst(s, conds, any, self) == (Err(IllegalArgument), s)
    ensures |conds| >= 2 && (forall i :: 0 <= i < |conds| ==> conds[i].Some?) ==>
              var r := CombinedConst(s, conds, any, self).0;
              r.Ok? && r.value.Some? && FormatOf(r.value.value) == (if any then AnyF else AllF) &&
              |r.value.value.conds| == |conds| &&
              forall i :: 0 <= i < |conds| ==> r.value.value.conds[i] == conds[i].value
  {
    if |conds| >= 2 && (forall i :: 0 <= i < |conds| ==> conds[i].Some?) {
      var cs := seq(|conds|, i requires 0 <= i < |conds| => conds[i].value);
      RegisterOutcome(s, Plain(if any then AnyC(cs) else AllC(cs), self), self);
    }
  }

  // ----- identity constants -----

  /** `ensureModuleConstant`: a valid module name gives the module found by its name, or a new registered one. */
  function ModuleConst(s: PoolState, name: string, validModule: string -> bool, self: nat): (Result<Option<Const>>, PoolState) {
    if !validModule(name) then (Err(IllegalArgument), s)
    else if (ModuleF, NameLoc(name)) in s.locators then (Ok(Some(s.locators[(ModuleF, NameLoc(name))])), s)
    else Registered(s, Plain(ModuleC(name), self), self)
  }

  /** `ensurePackageConstant`: under a module or package, with a valid name. */
  function PackageConst(s: PoolState, parent: Option<Const>, name: string, validId: string -> bool, self: nat):
    (Result<Option<Const>>, PoolState)
  {
    if parent.None? || !validId(name) then (Err(IllegalArgument), s)
    else if !(parent.value.ModuleC? || parent.value.PackageC?) then (Err(IllegalArgument), s)
    else Registered(s, Plain(PackageC(parent.value, name), self), self)
  }

  /** `ensureClassConstant`: under a module, package, class or method. */
  function ClassConst(s: PoolState, parent: Option<Const>, name: string, self: nat): (Result<Option<Const>>, PoolState) {
    if parent.None? then (Err(NullPointer), s)
    else if !(parent.value.ModuleC? || parent.value.PackageC? || parent.value.ClassC? || parent.value.MethodC?) then
      (Err(IllegalArgument), s)
    else Registered(s, Plain(ClassC(parent.value, name), self), self)
  }

  /** In a valid pool a module found by its name is that module. */
  lemma EnsureModuleIsModule(s: PoolState, name: string, validModule: string -> bool, self: nat)
    requires Valid(s)
    ensures var (r, s2) := ModuleConst(s, name, validModule, self);
            (r.Ok? <==> validModule(name)) && (r.Ok? ==> r.value == Some(ModuleC(name)) && Valid(s2))
  {
    if s.built {
      LocatorsOfSound(s.list);
    }
    RegisterOwn(s, ModuleC(name), self);
  }

  /** A package made under a module or package with a valid name is that package, and the pool stays valid. */
  lemma EnsurePackageIsPackage(s: PoolState, parent: Const, name: string, validId: string -> bool, self: nat)
    requires Valid(s)
    ensures var (r, s2) := PackageConst(s, Some(parent), name, validId, self);
            (r.Ok? <==> validId(name) && (parent.ModuleC? || parent.PackageC?)) &&
            (r.Ok? ==> r.value == Some(PackageC(parent, name)) && Valid(s2))
  {
    RegisterOwn(s, PackageC(parent, name), self);
  }

  /** A class made under a module, package, class or method is that class, and the pool stays valid. */
  lemma EnsureClassIsClass(s: PoolState, parent: Const, name: string, self: nat)
    requires Valid(s)
    ensures var (r, s2) := ClassConst(s, Some(parent), name, self);
            (r.Ok? <==> parent.ModuleC? || parent.PackageC? || parent.ClassC? || parent.MethodC?) &&
            (r.Ok? ==> r.value == Some(ClassC(parent, name)) && Valid(s2))
  {
    RegisterOwn(s, ClassC(parent, name), self);
  }

  // ----- bulk registration and optimisation -----

  /** `preRegisterAll`'s loop: every registered constant's count is zeroed, in list order. */
  function ResetRefs(refs: map<Const, nat>, l: seq<Const>): map<Const, nat> {
    if l == [] then refs else ResetRefs(refs, l[..|l| - 1])[l[|l| - 1] := 0]
  }

  /** After the reset, every constant of the list has no references and every other count is as before. */
  lemma {:induction false} ResetRefsCounts(refs: map<Const, nat>, l: seq<Const>, c: Const)
    ensures c in l ==> c in ResetRefs(refs, l) && ResetRefs(refs, l)[c] == 0
    ensures c !in l ==> (c in ResetRefs(refs, l) <==> c in refs) && (c in refs ==> ResetRefs(refs, l)[c] == refs[c])
  {
    if l != [] {
      var init := l[..|l| - 1];
      assert l == init + [l[|l| - 1]];
      ResetRefsCounts(refs, init, c);
    }
  }

  /** `preRegisterAll`: refused while a bulk registration is under way; otherwise it starts one with every count at zero. */
  function PreRegistered(s: PoolState): (Result<()>, PoolState) {
    if s.recurse then (Err(IllegalState), s)
    else (Ok(()), s.(recurse := true, refs := ResetRefs(s.refs, s.list)))
  }

  /** A constant is referenced when its count is positive. */
  predicate Referenced(refs: map<Const, nat>, c: Const) {
    c in refs && refs[c] > 0
  }

  /** The referenced constants of `l`, in order. */
  function Kept(l: seq<Const>, refs: map<Const, nat>): (r: seq<Const>)
    ensures |r| <= |l|
    ensures forall c :: c in r <==> c in l && Referenced(refs, c)
  {
    if l == [] then [] else (if Referenced(refs, l[0]) then [l[0]] else []) + Kept(l[1..], refs)
  }

  /** The positions `optimize` records, iterating from the end of `l` down to index `k`. */
  function Mark(pos: map<Const, int>, l: seq<Const>, refs: map<Const, nat>, k: nat): map<Const, int>
    requires k <= |l|
    decreases |l| - k
  {
    if k == |l| then pos else Mark(pos, l, refs, k + 1)[l[k] := if Referenced(refs, l[k]) then k else -1]
  }

  /**
   * `optimize` after the sort that gave `sorted`: the unreferenced
   * constants are dropped and marked -1, the others get their index, and
   * the lookup maps are discarded.
   */
  function Optimized(s: PoolState, sorted: seq<Const>): PoolState {
    s.(list := Kept(sorted, s.refs), position := Mark(s.position, sorted, s.refs, 0),
       built := false, lookup := {}, locators := map[])
  }

  /** `postRegisterAll`: refused when no bulk registration is under way; otherwise it ends it, optimising on request. */
  function PostRegistered(s: PoolState, optimize: bool, sorted: seq<Const>): (Result<()>, PoolState) {
    if !s.recurse then (Err(IllegalState), s)
    else
      var s1 := s.(recurse := false);
      (Ok(()), if optimize then Optimized(s1, sorted) else s1)
  }

  /**
   * One step of `optimize` from the end down: the constant at index `k - 1`
   * of the list is that of the sorted list, and keeping or dropping it
   * leaves the list the kept constants from `k - 1` on.
   */
  lemma OptimizeStep(sorted: seq<Const>, refs: map<Const, nat>, l: seq<Const>, k: nat)
    requires 0 < k <= |sorted| && l == sorted[..k] + Kept(sorted[k..], refs)
    ensures k - 1 < |l| && l[k - 1] == sorted[k - 1]
    ensures Referenced(refs, sorted[k - 1]) ==> l == sorted[..k - 1] + Kept(sorted[k - 1..], refs)
    ensures !Referenced(refs, sorted[k - 1]) ==> l[..k - 1] + l[k..] == sorted[..k - 1] + Kept(sorted[k - 1..], refs)
  {
    var i := k - 1;
    assert sorted[i..][1..] == sorted[k..];
    assert sorted[..k] == sorted[..i] + [sorted[i]];
    if !Referenced(refs, sorted[i]) {
      assert l[..i] == sorted[..i];
      assert l[k..] == Kept(sorted[k..], refs);
    }
  }

  /** Updating a map with the value it already has changes nothing. */
  lemma UpdateSame<K, V>(m: map<K, V>, k: K, v: V)
    requires k in m && m[k] == v
    ensures m[k := v] == m
  {
  }

  /** In a list without repeats, the mark of the constant at index `j` is `j`, or -1 when it is unreferenced. */
  lemma {:induction false} MarkAt(pos: map<Const, int>, l: seq<Const>, refs: map<Const, nat>, k: nat, j: nat)
    requires Distinct(l) && k <= j < |l|
    ensures l[j] in Mark(pos, l, refs, k)
    ensures Mark(pos, l, refs, k)[l[j]] == if Referenced(refs, l[j]) then j else -1
    decreases |l| - k
  {
    if j > k {
      MarkAt(pos, l, refs, k + 1, j);
    }
  }

  /** The most-frequently-used order puts every referenced constant before every unreferenced one. */
  predicate ReferencedFirst(l: seq<Const>, refs: map<Const, nat>) {
    forall a, b :: 0 <= a < b < |l| && Referenced(refs, l[b]) ==> Referenced(refs, l[a])
  }

  /** A list without referenced constants keeps none. */
  lemma {:induction false} KeptNone(l: seq<Const>, refs: map<Const, nat>)
    requires forall j :: 0 <= j < |l| ==> !Referenced(refs, l[j])
    ensures Kept(l, refs) == []
  {
    if l != [] {
      KeptNone(l[1..], refs);
    }
  }

  /** With the referenced constants first, the constants kept are a prefix of the sorted list. */
  lemma {:induction false} KeptPrefix(l: seq<Const>, refs: map<Const, nat>)
    requires ReferencedFirst(l, refs)
    ensures exists m :: 0 <= m <= |l| && Kept(l, refs) == l[..m]
  {
    if l == [] {
      assert Kept(l, refs) == l[..0];
    } else if Referenced(refs, l[0]) {
      forall a, b | 0 <= a < b < |l[1..]| && Referenced(refs, l[1..][b])
        ensures Referenced(refs, l[1..][a])
      {
        assert l[1..][b] == l[b + 1] && l[1..][a] == l[a + 1];
      }
      KeptPrefix(l[1..], refs);
      var m :| 0 <= m <= |l[1..]| && Kept(l[1..], refs) == l[1..][..m];
      assert l[..m + 1] == [l[0]] + l[1..][..m];
      assert Kept(l, refs) == l[..m + 1];
    } else {
      forall j | 0 <= j < |l[1..]|
        ensures !Referenced(refs, l[1..][j])
      {
        assert l[1..][j] == l[j + 1];
      }
      KeptNone(l[1..], refs);
      assert Kept(l, refs) == l[..0];
    }
  }

  /** Sequences with the same elements counted alike agree on being free of repeats. */
  lemma {:induction false} DistinctPermutation(a: seq<Const>, b: seq<Const>)
    requires multiset(a) == multiset(b) && Distinct(a)
    ensures Distinct(b)
  {
    forall i, j | 0 <= i < j < |b|
      ensures b[i] != b[j]
    {
      if b[i] == b[j] {
        TwoOccurrences(b, i, j);
        DistinctCount(a, b[i]);
      }
    }
  }

  /** A constant at two indices occurs at least twice. */
  lemma {:induction false} TwoOccurrences(b: seq<Const>, i: nat, j: nat)
    requires i < j < |b| && b[i] == b[j]
    ensures multiset(b)[b[i]] >= 2
  {
    var x := b[i];
    assert b == b[..j] + b[j..];
    assert b[..j][i] == x && b[j..][0] == x;
    assert multiset(b) == multiset(b[..j]) + multiset(b[j..]);
  }

  /** A constant occurs in a sequence without repeats at most once. */
  lemma {:induction false} DistinctCount(s: seq<Const>, x: Const)
    requires Distinct(s)
    ensures multiset(s)[x] <= 1
  {
    if s != [] {
      assert s == [s[0]] + s[1..];
      DistinctCount(s[1..], x);
      if s[0] == x {
        assert x !in s[1..];
      }
    }
  }

  /**
   * `optimize` on a most-frequently-used ordering of a valid pool: the
   * pool stays valid, every kept constant is referenced and sits at the
   * position it records, and every dropped constant records -1.
   */
  lemma OptimizeOutcome(s: PoolState, sorted: seq<Const>)
    requires Valid(s)
    requires multiset(sorted) == multiset(s.list) && ReferencedFirst(sorted, s.refs)
    ensures var s2 := Optimized(s, sorted);
            Valid(s2) && !s2.built &&
            (forall c :: c in s2.list <==> c in s.list && Referenced(s.refs, c)) &&
            (forall c :: c in s.list && !Referenced(s.refs, c) ==> c in s2.position && s2.position[c] == -1)
  {
    DistinctPermutation(s.list, sorted);
    KeptPrefix(sorted, s.refs);
    var s2 := Optimized(s, sorted);
    var m :| 0 <= m <= |sorted| && s2.list == sorted[..m];
    forall c
      ensures c in sorted <==> c in s.list
    {
      assert c in multiset(sorted) <==> c in multiset(s.list);
    }
    forall i | 0 <= i < |s2.list|
      ensures s2.list[i] in s2.position && s2.position[s2.list[i]] == i
    {
      MarkAt(s.position, sorted, s.refs, 0, i);
    }
    forall c | c in s.list && !Referenced(s.refs, c)
      ensures c in s2.position && s2.position[c] == -1
    {
      assert c in multiset(sorted);
      var j :| 0 <= j < |sorted| && sorted[j] == c;
      MarkAt(s.position, sorted, s.refs, 0, j);
    }
  }

  // ----- names in the core module -----

  /** `String.indexOf(ch, from)`: the first index at or after `from` holding `ch`, or -1. */
  function IndexOf(s: string, ch: char, from: nat): (r: int)
    ensures r == -1 || from <= r < |s|
    ensures r >= 0 ==> s[r] == ch && forall k :: from <= k < r ==> s[k] != ch
    ensures r == -1 ==> forall k :: from <= k < |s| ==> s[k] != ch
    decreases |s| - from
  {
    if from >= |s| then -1 else if s[from] == ch then from else IndexOf(s, ch, from + 1)
  }

  /** The first `ch` at or after `from` is the one with no `ch` between. */
  lemma {:induction false} IndexOfAt(s: string, ch: char, from: nat, r: nat)
    requires from <= r < |s| && s[r] == ch
    requires forall k :: from <= k < r ==> s[k] != ch
    ensures IndexOf(s, ch, from) == r
    decreases r - from
  {
    if from < r {
      IndexOfAt(s, ch, from + 1, r);
    }
  }

  /** Without `ch` at or after `from` there is none to find. */
  lemma {:induction false} IndexOfNone(s: string, ch: char, from: nat)
    requires forall k :: from <= k < |s| ==> s[k] != ch
    ensures IndexOf(s, ch, from) == -1
    decreases |s| - from
  {
    if from < |s| {
      IndexOfNone(s, ch, from + 1);
    }
  }

  /** The parameters a pool is made with: its identity, the core module's name, and the name checks of the lexer. */
  datatype Env = Env(self: nat, ecstasy: string, validModule: string -> bool, validId: string -> bool)

  /**
   * One segment of `ensureEcstasyClassConstant`, under `parent`: a class
   * when the parent is a class or the segment starts at or below 'Z',
   * otherwise a package.  An empty segment under a non-class has no first
   * character.
   */
  function Segment(s: PoolState, parent: Const, name: string, env: Env): (Result<Option<Const>>, PoolState) {
    if parent.ClassC? then ClassConst(s, Some(parent), name, env.self)
    else if |name| == 0 then (Err(OutOfBounds), s)
    else if name[0] <= 'Z' then ClassConst(s, Some(parent), name, env.self)
    else PackageConst(s, Some(parent), name, env.validId, env.self)
  }

  /** The walk over the segments of `cls` from offset `start` on, each under the constant the one before gave. */
  function Walk(s: PoolState, parent: Const, cls: string, start: nat, env: Env): (Result<Option<Const>>, PoolState)
    requires start <= |cls|
    decreases |cls| - start
  {
    var e := IndexOf(cls, '.', start);
    if e < 0 then ClassConst(s, Some(parent), cls[start..], env.self)
    else
      var (r, s1) := Segment(s, parent, cls[start..e], env);
      if r.Err? || r.value.None? then (r, s1)
      else Walk(s1, r.value.value, cls, e + 1, env)
  }

  /**
   * The outcome of the segments of `cls` from offset `start` on. The walk
   * is named once more so that a statement about it exposes one step of
   * the walk at a time.
   */
  function EcstasyFrom(s: PoolState, parent: Const, cls: string, start: nat, env: Env): (Result<Option<Const>>, PoolState)
    requires start <= |cls|
  {
    Walk(s, parent, cls, start, env)
  }

  /** The last step of `EcstasyFrom`: without a further dot, the rest is a class under the parent. */
  lemma EcstasyFromLast(s: PoolState, parent: Const, cls: string, start: nat, env: Env)
    requires start <= |cls| && IndexOf(cls, '.', start) < 0
    ensures EcstasyFrom(s, parent, cls, start, env) == ClassConst(s, Some(parent), cls[start..], env.self)
  {
  }

  /** `ensureEcstasyClassConstant`: the dotted name `cls` inside the core module. */
  function EcstasyClassConst(s: PoolState, cls: string, env: Env): (Result<Option<Const>>, PoolState) {
    var (r, s1) := ModuleConst(s, env.ecstasy, env.validModule, env.self);
    if r.Err? || r.value.None? then (r, s1) else EcstasyFrom(s1, r.value.value, cls, 0, env)
  }

  /** Where the last segment of `cls` from `start` on begins. */
  function LastStart(cls: string, start: nat): (k: nat)
    requires start <= |cls|
    ensures start <= k <= |cls| && IndexOf(cls, '.', k) == -1
    decreases |cls| - start
  {
    var e := IndexOf(cls, '.', start);
    if e < 0 then start else LastStart(cls, e + 1)
  }

  lemma LastStartStep(cls: string, start: nat)
    requires start <= |cls| && IndexOf(cls, '.', start) >= 0
    ensures LastStart(cls, start) == LastStart(cls, IndexOf(cls, '.', start) + 1)
  {
  }

  /** A segment yields a class or a package under its parent and keeps the pool valid. */
  lemma SegmentOutcome(s: PoolState, parent: Const, name: string, env: Env)
    requires Valid(s)
    requires parent.ModuleC? || parent.PackageC? || parent.ClassC?
    ensures var (r, s2) := Segment(s, parent, name, env);
            Valid(s2) &&
            (r.Ok? ==> r.value.Some? && (r.value.value.ClassC? || r.value.value.PackageC?)) &&
            (r.Err? ==> r.fault == IllegalArgument || r.fault == OutOfBounds)
  {
    EnsureClassIsClass(s, parent, name, env.self);
    EnsurePackageIsPackage(s, parent, name, env.validId, env.self);
  }

  /** An outcome of a walk: a class named `name`, or an illegal name or an empty segment. */
  predicate NamesClass(x: (Result<Option<Const>>, PoolState), name: string) {
    && (x.0.Ok? ==> x.0.value.Some? && x.0.value.value.ClassC? && x.0.value.value.name == name)
    && (x.0.Err? ==> x.0.fault == IllegalArgument || x.0.fault == OutOfBounds)
  }

  /** An outcome of a walk that also leaves the pool valid. */
  predicate YieldsClass(x: (Result<Option<Const>>, PoolState), name: string) {
    Valid(x.1) && NamesClass(x, name)
  }

  /**
   * The segments from `start` on yield a class named by the last segment,
   * and the pool stays valid; a failure is an illegal name or an empty
   * segment outside a class.
   */
  lemma EcstasyFromOutcome(s: PoolState, parent: Const, cls: string, start: nat, env: Env)
    requires Valid(s) && start <= |cls|
    requires parent.ModuleC? || parent.PackageC? || parent.ClassC?
    ensures YieldsClass(EcstasyFrom(s, parent, cls, start, env), cls[LastStart(cls, start)..])
  {
    EcstasyFromNames(s, parent, cls, start, env);
    EcstasyFromKeepsValid(s, parent, cls, start, env);
  }

  /** A segment gives a class or a package, or fails with an illegal name or an empty segment. */
  lemma SegmentNames(s: PoolState, parent: Const, name: string, env: Env)
    requires parent.ModuleC? || parent.PackageC? || parent.ClassC?
    ensures var r := Segment(s, parent, name, env).0;
            (r.Ok? ==> r.value.Some? && (r.value.value.ClassC? || r.value.value.PackageC?)) &&
            (r.Err? ==> r.fault == IllegalArgument || r.fault == OutOfBounds)
  {
  }

  /** A segment keeps the pool valid. */
  lemma SegmentKeepsValid(s: PoolState, parent: Const, name: string, env: Env)
    ensures Valid(s) ==> Valid(Segment(s, parent, name, env).1)
  {
    RegisterOwn(s, ClassC(parent, name), env.self);
    RegisterOwn(s, PackageC(parent, name), env.self);
  }

  /** The walk from `start` on gives a class named by the last segment, or an illegal name or an empty segment. */
  lemma {:induction false} EcstasyFromNames(s: PoolState, parent: Const, cls: string, start: nat, env: Env)
    requires start <= |cls|
    requires parent.ModuleC? || parent.PackageC? || parent.ClassC?
    ensures NamesClass(EcstasyFrom(s, parent, cls, start, env), cls[LastStart(cls, start)..])
    decreases |cls| - start
  {
    var e := IndexOf(cls, '.', start);
    if e < 0 {
      LastSegmentNames(s, parent, cls, start, env);
    } else {
      var go, v, s1 := SegmentNamesStep(s, parent, cls, start, env, e);
      if go {
        EcstasyFromNames(s1, v, cls, e + 1, env);
      }
    }
  }

  /** The last segment is a class named by it. */
  lemma LastSegmentNames(s: PoolState, parent: Const, cls: string, start: nat, env: Env)
    requires start <= |cls| && IndexOf(cls, '.', start) < 0
    requires parent.ModuleC? || parent.PackageC? || parent.ClassC?
    ensures NamesClass(EcstasyFrom(s, parent, cls, start, env), cls[LastStart(cls, start)..])
  {
    EcstasyFromLast(s, parent, cls, start, env);
    assert LastStart(cls, start) == start;
  }

  /**
   * One segment of the walk, for its outcome: either it gives a package or
   * a class `v` in pool `s1` and the walk goes on from there, or the walk
   * ends with an illegal name or an empty segment.
   */
  lemma SegmentNamesStep(s: PoolState, parent: Const, cls: string, start: nat, env: Env, e: int)
    returns (go: bool, v: Const, s1: PoolState)
    requires start <= |cls| && e == IndexOf(cls, '.', start) && e >= 0
    requires parent.ModuleC? || parent.PackageC? || parent.ClassC?
    ensures go ==> EcstasyFrom(s, parent, cls, start, env) == EcstasyFrom(s1, v, cls, e + 1, env)
    ensures go ==> (v.PackageC? || v.ClassC?) && LastStart(cls, start) == LastStart(cls, e + 1)
    ensures !go ==> NamesClass(EcstasyFrom(s, parent, cls, start, env), cls[LastStart(cls, start)..])
  {
    var name := cls[start..e];
    var step := Segment(s, parent, name, env);
    SegmentNames(s, parent, name, env);
    go := step.0.Ok? && step.0.value.Some?;
    if go {
      v, s1 := step.0.value.value, step.1;
      EcstasyFromContinue(s, parent, cls, start, env, e, name, v, s1);
      LastStartStep(cls, start);
    } else {
      v, s1 := parent, s;
      EcstasyFromStop(s, parent, cls, start, env, e, name);
    }
  }

  /** The walk keeps the pool valid. */
  lemma {:induction false} EcstasyFromKeepsValid(s: PoolState, parent: Const, cls: string, start: nat, env: Env)
    requires start <= |cls|
    ensures Valid(s) ==> Valid(EcstasyFrom(s, parent, cls, start, env).1)
    decreases |cls| - start
  {
    var e := IndexOf(cls, '.', start);
    if e < 0 {
      LastSegmentKeepsValid(s, parent, cls, start, env);
    } else {
      var go, v, s1 := SegmentStep(s, parent, cls, start, env, e);
      if go {
        EcstasyFromKeepsValid(s1, v, cls, e + 1, env);
      }
    }
  }

  /** The last segment, a class, keeps the pool valid. */
  lemma LastSegmentKeepsValid(s: PoolState, parent: Const, cls: string, start: nat, env: Env)
    requires start <= |cls| && IndexOf(cls, '.', start) < 0
    ensures Valid(s) ==> Valid(EcstasyFrom(s, parent, cls, start, env).1)
  {
    EcstasyFromLast(s, parent, cls, start, env);
    RegisterOwn(s, ClassC(parent, cls[start..]), env.self);
  }

  /**
   * One segment of the walk: either it gives constant `v` in pool `s1` and
   * the walk goes on from there, or the walk ends; either way a valid pool
   * stays valid.
   */
  lemma SegmentStep(s: PoolState, parent: Const, cls: string, start: nat, env: Env, e: int)
    returns (go: bool, v: Const, s1: PoolState)
    requires start <= |cls| && e == IndexOf(cls, '.', start) && e >= 0
    ensures go ==> EcstasyFrom(s, parent, cls, start, env) == EcstasyFrom(s1, v, cls, e + 1, env)
    ensures go ==> (Valid(s) ==> Valid(s1))
    ensures !go ==> (Valid(s) ==> Valid(EcstasyFrom(s, parent, cls, start, env).1))
  {
    var name := cls[start..e];
    var step := Segment(s, parent, name, env);
    SegmentKeepsValid(s, parent, name, env);
    go := step.0.Ok? && step.0.value.Some?;
    if go {
      v, s1 := step.0.value.value, step.1;
      EcstasyFromContinue(s, parent, cls, start, env, e, name, v, s1);
    } else {
      v, s1 := parent, s;
      EcstasyFromStop(s, parent, cls, start, env, e, name);
    }
  }

  /** After a segment that gives a constant, the walk goes on under it from past the dot. */
  lemma EcstasyFromContinue(s: PoolState, parent: Const, cls: string, start: nat, env: Env,
                            e: int, name: string, v: Const, s1: PoolState)
    requires start <= |cls| && e == IndexOf(cls, '.', start) && e >= 0 && name == cls[start..e]
    requires Segment(s, parent, name, env) == (Ok(Some(v)), s1)
    ensures EcstasyFrom(s, parent, cls, start, env) == EcstasyFrom(s1, v, cls, e + 1, env)
  {
  }

  /** A segment that gives no constant ends the walk with its own outcome. */
  lemma EcstasyFromStop(s: PoolState, parent: Const, cls: string, start: nat, env: Env, e: int, name: string)
    requires start <= |cls| && e == IndexOf(cls, '.', start) && e >= 0 && name == cls[start..e]
    requires !(Segment(s, parent, name, env).0.Ok? && Segment(s, parent, name, env).0.value.Some?)
    ensures EcstasyFrom(s, parent, cls, start, env) == Segment(s, parent, name, env)
  {
  }

  /** A name without a dot is a class directly inside the core module. */
  lemma EcstasyTopLevel(s: PoolState, cls: string, env: Env)
    requires Valid(s) && env.validModule(env.ecstasy)
    requires forall k :: 0 <= k < |cls| ==> cls[k] != '.'
    ensures var (r, s2) := EcstasyClassConst(s, cls, env);
            r == Ok(Some(ClassC(ModuleC(env.ecstasy), cls))) && Valid(s2)
  {
    var eco := ModuleC(env.ecstasy);
    EnsureModuleIsModule(s, env.ecstasy, env.validModule, env.self);
    var s1 := ModuleConst(s, env.ecstasy, env.validModule, env.self).1;
    EcstasyClassStart(s, cls, env, eco, s1);
    IndexOfNone(cls, '.', 0);
    EcstasyFromLast(s1, eco, cls, 0, env);
    assert cls[0..] == cls;
    RegisterOwn(s1, ClassC(eco, cls), env.self);
  }

  /** Below the core module, the walk starts at offset 0. */
  lemma EcstasyClassStart(s: PoolState, cls: string, env: Env, m: Const, s1: PoolState)
    requires ModuleConst(s, env.ecstasy, env.validModule, env.self) == (Ok(Some(m)), s1)
    ensures EcstasyClassConst(s, cls, env) == EcstasyFrom(s1, m, cls, 0, env)
  {
  }

  /** Where the dot of `collections.Tuple` is. */
  lemma TupleDots()
    ensures IndexOf("collections.Tuple", '.', 0) == 11 && IndexOf("collections.Tuple", '.', 12) == -1
    ensures "collections.Tuple"[..11] == "collections" && "collections.Tuple"[12..] == "Tuple"
  {
    var a := "collections.Tuple";
    assert |a| == 17 && a[11] == '.' && forall k :: 0 <= k < 11 || 12 <= k < 17 ==> a[k] != '.';
    IndexOfAt(a, '.', 0, 11);
    IndexOfNone(a, '.', 12);
  }

  /** Where the dot of `Map.Entry` is. */
  lemma EntryDots()
    ensures IndexOf("Map.Entry", '.', 0) == 3 && IndexOf("Map.Entry", '.', 4) == -1
    ensures "Map.Entry"[..3] == "Map" && "Map.Entry"[4..] == "Entry"
  {
    var b := "Map.Entry";
    assert |b| == 9 && b[3] == '.' && forall k :: 0 <= k < 3 || 4 <= k < 9 ==> b[k] != '.';
    IndexOfAt(b, '.', 0, 3);
    IndexOfNone(b, '.', 4);
  }

  /** A name whose first dot is at `e` and has no further dot: the segment before it, then the class after. */
  lemma EcstasyTwoSegments(s: PoolState, parent: Const, cls: string, e: nat, env: Env)
    requires parent.ModuleC?
    requires e < |cls| && IndexOf(cls, '.', 0) == e && IndexOf(cls, '.', e + 1) == -1
    ensures var step := Segment(s, parent, cls[..e], env);
            step.0.Ok? ==>
              EcstasyFrom(s, parent, cls, 0, env).0 == Ok(Some(ClassC(step.0.value.value, cls[e + 1..])))
  {
    assert cls[0..e] == cls[..e];
    SegmentNames(s, parent, cls[..e], env);
    var step := Segment(s, parent, cls[..e], env);
    if step.0.Ok? {
      var v, s1 := step.0.value.value, step.1;
      EcstasyFromContinue(s, parent, cls, 0, env, e, cls[..e], v, s1);
      EcstasyFromLast(s1, v, cls, e + 1, env);
      RegisterOwn(s1, ClassC(v, cls[e + 1..]), env.self);
    }
  }

  /** A two-segment name whose first segment is lower case: a class inside a package of the core module. */
  lemma EcstasyPackagePath(s: PoolState, cls: string, e: nat, env: Env)
    requires Valid(s) && env.validModule(env.ecstasy)
    requires 0 < e < |cls| && IndexOf(cls, '.', 0) == e && IndexOf(cls, '.', e + 1) == -1
    requires cls[0] > 'Z' && env.validId(cls[..e])
    ensures EcstasyClassConst(s, cls, env).0 == Ok(Some(ClassC(PackageC(ModuleC(env.ecstasy), cls[..e]), cls[e + 1..])))
  {
    var eco := ModuleC(env.ecstasy);
    EnsureModuleIsModule(s, env.ecstasy, env.validModule, env.self);
    var s1 := ModuleConst(s, env.ecstasy, env.validModule, env.self).1;
    EcstasyClassStart(s, cls, env, eco, s1);
    assert cls[..e][0] == cls[0];
    LowerSegment(s1, eco, cls[..e], env);
    EcstasyTwoSegments(s1, eco, cls, e, env);
  }

  /** A lower-case segment under a module is a package of it. */
  lemma LowerSegment(s: PoolState, parent: Const, name: string, env: Env)
    requires parent.ModuleC? && |name| > 0 && name[0] > 'Z' && env.validId(name)
    ensures Segment(s, parent, name, env).0 == Ok(Some(PackageC(parent, name)))
  {
    RegisterOwn(s, PackageC(parent, name), env.self);
  }

  /** An upper-case segment under a module is a class of it. */
  lemma UpperSegment(s: PoolState, parent: Const, name: string, env: Env)
    requires parent.ModuleC? && |name| > 0 && name[0] <= 'Z'
    ensures Segment(s, parent, name, env).0 == Ok(Some(ClassC(parent, name)))
  {
    RegisterOwn(s, ClassC(parent, name), env.self);
  }

  /** A two-segment name whose first segment is upper case: a class nested in a class of the core module. */
  lemma EcstasyNestedPath(s: PoolState, cls: string, e: nat, env: Env)
    requires Valid(s) && env.validModule(env.ecstasy)
    requires 0 < e < |cls| && IndexOf(cls, '.', 0) == e && IndexOf(cls, '.', e + 1) == -1
    requires cls[0] <= 'Z'
    ensures EcstasyClassConst(s, cls, env).0 == Ok(Some(ClassC(ClassC(ModuleC(env.ecstasy), cls[..e]), cls[e + 1..])))
  {
    var eco := ModuleC(env.ecstasy);
    EnsureModuleIsModule(s, env.ecstasy, env.validModule, env.self);
    var s1 := ModuleConst(s, env.ecstasy, env.validModule, env.self).1;
    EcstasyClassStart(s, cls, env, eco, s1);
    assert cls[..e][0] == cls[0];
    UpperSegment(s1, eco, cls[..e], env);
    EcstasyTwoSegments(s1, eco, cls, e, env);
  }

  /** A lower-case segment becomes a package. */
  lemma EcstasyPackageSegment(s: PoolState, env: Env)
    requires Valid(s) && env.validModule(env.ecstasy) && env.validId("collections")
    ensures EcstasyClassConst(s, "collections.Tuple", env).0 ==
              Ok(Some(ClassC(PackageC(ModuleC(env.ecstasy), "collections"), "Tuple")))
  {
    TupleDots();
    EcstasyPackagePath(s, "collections.Tuple", 11, env);
  }

  /** An upper-case segment becomes a class, and the segment after it a class nested in it. */
  lemma EcstasyClassSegment(s: PoolState, env: Env)
    requires Valid(s) && env.validModule(env.ecstasy)
    ensures EcstasyClassConst(s, "Map.Entry", env).0 ==
              Ok(Some(ClassC(ClassC(ModuleC(env.ecstasy), "Map"), "Entry")))
  {
    EntryDots();
    EcstasyNestedPath(s, "Map.Entry", 3, env);
  }

  /** The table of implicitly imported names: an optional package, class and nested class of the core module. */
  function ImplicitName(name: string): Option<(Option<string>, Option<string>, Option<string>)> {
    if name == "Ecstasy" || name == "X" then Some((None, None, None))
    else if name in {"Boolean", "Char", "Class", "Object", "String", "Type", "Void"} then Some((None, Some(name), None))
    else if name == "Int" then Some((None, Some("Int64"), None))
    else if name == "Tuple" then Some((Some("collections"), Some(name), None))
    else if name == "null" then Some((None, Some("Nullable"), Some("Null")))
    else if name == "true" then Some((None, Some("Boolean"), Some("True")))
    else if name == "false" then Some((None, Some("Boolean"), Some("False")))
    else None
  }

  /** Chain one more optional step onto an identity constant being built. */
  function Then(r: (Result<Option<Const>>, PoolState), step: Option<string>, pkg: bool, env: Env): (Result<Option<Const>>, PoolState) {
    if step.None? || r.0.Err? || r.0.value.None? then r
    else if pkg then PackageConst(r.1, r.0.value, step.value, env.validId, env.self)
    else ClassConst(r.1, r.0.value, step.value, env.self)
  }

  /** The constant a table entry names: the core module, then the package, the class and the nested class it gives. */
  function EntryConst(s: PoolState, pkg: Option<string>, clz: Option<string>, sub: Option<string>, env: Env):
    (Result<Option<Const>>, PoolState)
  {
    var r0 := ModuleConst(s, env.ecstasy, env.validModule, env.self);
    var r1 := Then(r0, pkg, true, env);
    var r2 := Then(r1, clz, false, env);
    if clz.None? then r2 else Then(r2, sub, false, env)
  }

  /** `ensureImplicitlyImportedIdentityConstant`: null for an unknown name, otherwise the constant the table names. */
  function ImplicitConst(s: PoolState, name: string, env: Env): (Result<Option<Const>>, PoolState) {
    match ImplicitName(name)
    case None => (Ok(None), s)
    case Some((pkg, clz, sub)) => EntryConst(s, pkg, clz, sub, env)
  }

  /** A class step under a module, package or class of a valid pool gives that class and keeps the pool valid. */
  lemma ThenClass(r: (Result<Option<Const>>, PoolState), name: string, env: Env, p: Const)
    requires Valid(r.1) && r.0 == Ok(Some(p)) && (p.ModuleC? || p.PackageC? || p.ClassC?)
    ensures Then(r, Some(name), false, env).0 == Ok(Some(ClassC(p, name)))
    ensures Valid(Then(r, Some(name), false, env).1)
  {
    RegisterOwn(r.1, ClassC(p, name), env.self);
  }

  /** The first step of every entry: the core module, in a pool that stays valid. */
  lemma EntryModule(s: PoolState, env: Env)
    requires Valid(s) && env.validModule(env.ecstasy)
    ensures ModuleConst(s, env.ecstasy, env.validModule, env.self).0 == Ok(Some(ModuleC(env.ecstasy)))
    ensures Valid(ModuleConst(s, env.ecstasy, env.validModule, env.self).1)
  {
    EnsureModuleIsModule(s, env.ecstasy, env.validModule, env.self);
  }

  /** A name the table maps to a class of the core module gives that class. */
  lemma ImplicitClass(s: PoolState, clz: string, env: Env)
    requires Valid(s) && env.validModule(env.ecstasy)
    ensures EntryConst(s, None, Some(clz), None, env).0 == Ok(Some(ClassC(ModuleC(env.ecstasy), clz)))
  {
    EntryModule(s, env);
    var r0 := ModuleConst(s, env.ecstasy, env.validModule, env.self);
    ThenClass(r0, clz, env, ModuleC(env.ecstasy));
  }

  /** A name the table maps to a class nested in a class of the core module gives the nested class. */
  lemma ImplicitNestedClass(s: PoolState, clz: string, sub: string, env: Env)
    requires Valid(s) && env.validModule(env.ecstasy)
    ensures EntryConst(s, None, Some(clz), Some(sub), env).0 == Ok(Some(ClassC(ClassC(ModuleC(env.ecstasy), clz), sub)))
  {
    EntryModule(s, env);
    var r0 := ModuleConst(s, env.ecstasy, env.validModule, env.self);
    ThenClass(r0, clz, env, ModuleC(env.ecstasy));
    var r2 := Then(r0, Some(clz), false, env);
    ThenClass(r2, sub, env, ClassC(ModuleC(env.ecstasy), clz));
  }

  /** `Tuple` is the class of the collections package of the core module. */
  lemma ImplicitTuple(s: PoolState, env: Env)
    requires Valid(s) && env.validModule(env.ecstasy) && env.validId("collections")
    ensures EntryConst(s, Some("collections"), Some("Tuple"), None, env).0 ==
              Ok(Some(ClassC(PackageC(ModuleC(env.ecstasy), "collections"), "Tuple")))
  {
    EntryModule(s, env);
    var r0 := ModuleConst(s, env.ecstasy, env.validModule, env.self);
    EnsurePackageIsPackage(r0.1, ModuleC(env.ecstasy), "collections", env.validId, env.self);
    var r1 := Then(r0, Some("collections"), true, env);
    ThenClass(r1, "Tuple", env, PackageC(ModuleC(env.ecstasy), "collections"));
  }

  /** The entries of the table for the names of the core types. */
  lemma ImplicitTable()
    ensures ImplicitName("Int") == Some((None, Some("Int64"), None))
    ensures ImplicitName("String") == Some((None, Some("String"), None))
    ensures ImplicitName("null") == Some((None, Some("Nullable"), Some("Null")))
    ensures ImplicitName("true") == Some((None, Some("Boolean"), Some("True")))
    ensures ImplicitName("false") == Some((None, Some("Boolean"), Some("False")))
    ensures ImplicitName("Tuple") == Some((Some("collections"), Some("Tuple"), None))
    ensures ImplicitName("X") == Some((None, None, None))
    ensures ImplicitName("Int64") == None
  {
  }

  /** The implicit names of the core types, and null for any other name with the pool untouched. */
  lemma ImplicitImports(s: PoolState, env: Env)
    requires Valid(s) && env.validModule(env.ecstasy) && env.validId("collections")
    ensures var eco := ModuleC(env.ecstasy);
            && ImplicitConst(s, "Int", env).0 == Ok(Some(ClassC(eco, "Int64")))
            && ImplicitConst(s, "String", env).0 == Ok(Some(ClassC(eco, "String")))
            && ImplicitConst(s, "null", env).0 == Ok(Some(ClassC(ClassC(eco, "Nullable"), "Null")))
            && ImplicitConst(s, "true", env).0 == Ok(Some(ClassC(ClassC(eco, "Boolean"), "True")))
            && ImplicitConst(s, "false", env).0 == Ok(Some(ClassC(ClassC(eco, "Boolean"), "False")))
            && ImplicitConst(s, "Tuple", env).0 == Ok(Some(ClassC(PackageC(eco, "collections"), "Tuple")))
            && ImplicitConst(s, "X", env).0 == Ok(Some(eco))
            && ImplicitConst(s, "Int64", env) == (Ok(None), s)
  {
    ImplicitTable();
    ImplicitClass(s, "Int64", env);
    ImplicitClass(s, "String", env);
    ImplicitNestedClass(s, "Nullable", "Null", env);
    ImplicitNestedClass(s, "Boolean", "True", env);
    ImplicitNestedClass(s, "Boolean", "False", env);
    ImplicitTuple(s, env);
    EnsureModuleIsModule(s, env.ecstasy, env.validModule, env.self);
  }

  // ----- the pool object -----

  /** The pool: its fields are the components of `PoolState`, updated in place. */
  class ConstantPool {
    const env: Env
    var list: seq<Const>
    var position: map<Const, int>
    var refs: map<Const, nat>
    var built: bool
    var lookup: set<Const>
    var locators: map<(Format, Loc), Const>
    var recurse: bool

    /** The pool's fields as one value. */
    function St(): PoolState
      reads this
    {
      PoolState(list, position, refs, built, lookup, locators, recurse)
    }

    /** A new pool holds no constants and is not registering in bulk. */
    constructor (env: Env)
      ensures this.env == env && St() == PoolState([], map[], map[], false, {}, map[], false)
      ensures Valid(St())
    {
      this.env := env;
      list := [];
      position := map[];
      refs := map[];
      built := false;
      lookup := {};
      locators := map[];
      recurse := false;
    }

    /** `ensureLookup`: fill the lookup maps from the list when they do not exist. */
    method EnsureLookup()
      modifies this
      ensures St() == Built(old(St()))
    {
      if !built {
        var l := list;
        var found: set<Const> := {};
        var located: map<(Format, Loc), Const> := map[];
        for i := 0 to |l|
          invariant l == list && St() == old(St())
          invariant found == Elements(l[..i]) && located == LocatorsOf(l[..i])
        {
          var c := l[i];
          assert l[..i + 1] == l[..i] + [c];
          assert l[..i + 1][..i] == l[..i];
          LocatorsOfAppend(l[..i], c);
          found := found + {c};
          if Key(c).Some? {
            located := located[Key(c).value := c];
          }
        }
        assert l[..|l|] == l;
        built, lookup, locators := true, found, located;
      }
    }

    /** `register`: the constant to use in place of the candidate, interned and counted. */
    method Register(cand: Candidate) returns (r: Result<Option<Const>>)
      modifies this
      ensures (r, St()) == Registered(old(St()), cand, env.self)
    {
      if cand.NullRef? {
        return Ok(None);
      }
      var c, home;
      if cand.Resolvable? {
        if cand.resolved.None? {
          return Ok(None);
        }
        c, home := cand.resolved.value, cand.resolvedHome;
      } else {
        c, home := cand.c, cand.home;
      }
      EnsureLookup();
      if c !in lookup {
        if home != env.self {
          return Err(Unsupported);
        }
        position := position[c := |list|];
        list := list + [c];
        lookup := lookup + {c};
        if Key(c).Some? {
          locators := locators[Key(c).value := c];
        }
      }
      if recurse {
        refs := refs[c := RefsOf(St(), c) + 1];
      }
      r := Ok(Some(c));
    }

    /** `preRegisterAll`: start counting references, from zero for every constant. */
    method PreRegisterAll() returns (r: Result<()>)
      modifies this
      ensures (r, St()) == PreRegistered(old(St()))
    {
      if recurse {
        return Err(IllegalState);
      }
      var l := list;
      var counts := refs;
      for i := 0 to |l|
        invariant counts == ResetRefs(refs, l[..i])
      {
        assert l[..i + 1][..i] == l[..i];
        counts := counts[l[i] := 0];
      }
      assert l[..|l|] == l;
      recurse, refs := true, counts;
      r := Ok(());
    }

    /**
     * `optimize`, given the list as the most-frequently-used sort leaves
     * it: from the end down, keep and renumber the referenced constants and
     * drop the others; then discard the lookup maps.
     */
    method Optimize(sorted: seq<Const>)
      modifies this
      ensures St() == Optimized(old(St()), sorted)
    {
      var l, pos, counts := sorted, position, refs;
      var k := |l|;
      while k > 0
        invariant 0 <= k <= |sorted|
        invariant l == sorted[..k] + Kept(sorted[k..], counts)
        invariant pos == Mark(old(position), sorted, counts, k)
        modifies {}
        decreases k
      {
        var i := k - 1;
        OptimizeStep(sorted, counts, l, k);
        var c := l[i];
        if Referenced(counts, c) {
          if c !in pos || pos[c] != i {
            pos := pos[c := i];
          } else {
            UpdateSame(pos, c, i);
          }
        } else {
          pos := pos[c := -1];
          l := l[..i] + l[i + 1..];
        }
        k := i;
      }
      assert sorted[..0] == [] && sorted[0..] == sorted;
      list, position := l, pos;
      built, lookup, locators := false, {}, map[];
    }

    /** `postRegisterAll`: stop counting references and optimise on request. */
    method PostRegisterAll(optimize: bool, sorted: seq<Const>) returns (r: Result<()>)
      modifies this
      ensures (r, St()) == PostRegistered(old(St()), optimize, sorted)
    {
      if !recurse {
        return Err(IllegalState);
      }
      recurse := false;
      if optimize {
        Optimize(sorted);
      }
      r := Ok(());
    }

    /** `ensureModuleConstant`. */
    method EnsureModule(name: string) returns (r: Result<Option<Const>>)
      modifies this
      ensures (r, St()) == ModuleConst(old(St()), name, env.validModule, env.self)
    {
      if !env.validModule(name) {
        return Err(IllegalArgument);
      }
      if (ModuleF, NameLoc(name)) in locators {
        return Ok(Some(locators[(ModuleF, NameLoc(name))]));
      }
      r := Register(Plain(ModuleC(name), env.self));
    }

    /** `ensurePackageConstant`. */
    method EnsurePackage(parent: Option<Const>, name: string) returns (r: Result<Option<Const>>)
      modifies this
      ensures (r, St()) == PackageConst(old(St()), parent, name, env.validId, env.self)
    {
      if parent.None? || !env.validId(name) {
        return Err(IllegalArgument);
      }
      if !(parent.value.ModuleC? || parent.value.PackageC?) {
        return Err(IllegalArgument);
      }
      r := Register(Plain(PackageC(parent.value, name), env.self));
    }

    /** `ensureClassConstant`. */
    method EnsureClass(parent: Option<Const>, name: string) returns (r: Result<Option<Const>>)
      modifies this
      ensures (r, St()) == ClassConst(old(St()), parent, name, env.self)
    {
      if parent.None? {
        return Err(NullPointer);
      }
      if !(parent.value.ModuleC? || parent.value.PackageC? || parent.value.ClassC? || parent.value.MethodC?) {
        return Err(IllegalArgument);
      }
      r := Register(Plain(ClassC(parent.value, name), env.self));
    }

    /** `ensureAnyCondition` when `any` holds, `ensureAllCondition` otherwise. */
    method EnsureCombined(conds: seq<Option<Const>>, any: bool) returns (r: Result<Option<Const>>)
      modifies this
      ensures (r, St()) == CombinedConst(old(St()), conds, any, env.self)
    {
      if exists i :: 0 <= i < |conds| && conds[i].None? {
        return Err(IllegalArgument);
      }
      if |conds| < 2 {
        return Err(IllegalArgument);
      }
      var cs := seq(|conds|, i requires 0 <= i < |conds| => conds[i].value);
      r := Register(Plain(if any then AnyC(cs) else AllC(cs), env.self));
    }

    /** One segment of `ensureEcstasyClassConstant`: a class or a package under `parent`. */
    method EnsureSegment(parent: Const, name: string) returns (r: Result<Option<Const>>)
      modifies this
      ensures (r, St()) == Segment(old(St()), parent, name, env)
    {
      if parent.ClassC? || (|name| > 0 && name[0] <= 'Z') {
        r := EnsureClass(Some(parent), name);
      } else if |name| == 0 {
        r := Err(OutOfBounds);
      } else {
        r := EnsurePackage(Some(parent), name);
      }
    }

    /** `ensureEcstasyClassConstant`: walk the dotted name segment by segment from the core module. */
    method EnsureEcstasyClass(cls: string) returns (r: Result<Option<Const>>)
      modifies this
      ensures (r, St()) == EcstasyClassConst(old(St()), cls, env)
    {
      r := EnsureModule(env.ecstasy);
      if r.Ok? && r.value.Some? {
        r := WalkSegments(r.value.value, cls);
      }
    }

    /** One dotted segment of the walk: it either ends the walk with its outcome or hands on to the next segment. */
    method WalkOne(parent: Const, cls: string, ofStart: nat, ofEnd: int) returns (step: Result<Option<Const>>)
      requires ofStart <= |cls| && ofEnd == IndexOf(cls, '.', ofStart) && ofEnd >= 0
      modifies this
      ensures step.Err? || step.value.None? ==> (step, St()) == EcstasyFrom(old(St()), parent, cls, ofStart, env)
      ensures step.Ok? && step.value.Some? ==>
                EcstasyFrom(old(St()), parent, cls, ofStart, env) == EcstasyFrom(St(), step.value.value, cls, ofEnd + 1, env)
    {
      ghost var s0 := St();
      var name := cls[ofStart..ofEnd];
      step := EnsureSegment(parent, name);
      if step.Err? || step.value.None? {
        EcstasyFromStop(s0, parent, cls, ofStart, env, ofEnd, name);
      } else {
        EcstasyFromContinue(s0, parent, cls, ofStart, env, ofEnd, name, step.value.value, St());
      }
    }

    /** The loop of `ensureEcstasyClassConstant`: every segment up to a dot, then the class after the last one. */
    method WalkSegments(root: Const, cls: string) returns (r: Result<Option<Const>>)
      modifies this
      ensures (r, St()) == EcstasyFrom(old(St()), root, cls, 0, env)
    {
      var parent := root;
      var ofStart := 0;
      var ofEnd := IndexOf(cls, '.', 0);
      while ofEnd >= 0
        invariant 0 <= ofStart <= |cls| && ofEnd == IndexOf(cls, '.', ofStart)
        invariant EcstasyFrom(old(St()), root, cls, 0, env) == EcstasyFrom(St(), parent, cls, ofStart, env)
        decreases |cls| - ofStart
      {
        var step := WalkOne(parent, cls, ofStart, ofEnd);
        if step.Err? || step.value.None? {
          return step;
        }
        parent := step.value.value;
        ofStart := ofEnd + 1;
        ofEnd := IndexOf(cls, '.', ofStart);
      }
      EcstasyFromLast(St(), parent, cls, ofStart, env);
      r := EnsureClass(Some(parent), cls[ofStart..]);
    }

    /** `ensureImplicitlyImportedIdentityConstant`: look the name up in the table, then build the constant it names. */
    method EnsureImplicitlyImported(name: string) returns (r: Result<Option<Const>>)
      modifies this
      ensures (r, St()) == ImplicitConst(old(St()), name, env)
    {
      var entry := ImplicitName(name);
      if entry.None? {
        return Ok(None);
      }
      var (pkg, clz, sub) := entry.value;
      r := EnsureModule(env.ecstasy);
      if pkg.Some? && r.Ok? && r.value.Some? {
        r := EnsurePackage(r.value, pkg.value);
      }
      if clz.Some? && r.Ok? && r.value.Some? {
        r := EnsureClass(r.value, clz.value);
        if sub.Some? && r.Ok? && r.value.Some? {
          r := EnsureClass(r.value, sub.value);
        }
      }
    }
  }
}
