/**
 * A class structure: whether it is a singleton, how it extends other
 * classes, where a contribution to it comes from, and its type parameters.
 */
module Classes {
  import opened Base

  /** The formats of components; `OtherFormat` stands for the non-class ones (methods, properties, ...). */
  datatype Format = Module | Package | EnumValue | Interface | Class | Enum | Mixin | Trait | Const | Service | OtherFormat

  /** `isSingleton`: by format; a const or service only when static and directly inside a module or package. */
  function IsSingleton(format: Format, isStatic: bool, parent: Format): (r: Result<bool>)
    ensures r.Err? <==> format == OtherFormat
    ensures r.Err? ==> r.fault == IllegalState
    ensures format in {Module, Package, EnumValue} ==> r == Ok(true)
    ensures format in {Interface, Class, Enum, Mixin, Trait} ==> r == Ok(false)
    ensures format in {Const, Service} ==> r == Ok(isStatic && parent in {Module, Package})
  {
    match format
    case Module => Ok(true)
    case Package => Ok(true)
    case EnumValue => Ok(true)
    case Interface => Ok(false)
    case Class => Ok(false)
    case Enum => Ok(false)
    case Mixin => Ok(false)
    case Trait => Ok(false)
    case Const => Ok(isStatic && (parent == Module || parent == Package))
    case Service => Ok(isStatic && (parent == Module || parent == Package))
    case OtherFormat => Err(IllegalState)
  }

  // ----- contributions and the class hierarchy -----

  /** How a contribution composes into a class. */
  datatype Composition = Annotation | Delegates | Into | Incorporates | Implements | Extends
                       | Enumerates | Impersonates | Equal | OtherComposition

  /** A contribution: its composition and the class its type is defined by (none for a type-less one). */
  datatype Contribution = Contribution(comp: Composition, target: Option<nat>)

  /** What the hierarchy queries need of a class: its format and its contributions in order. */
  datatype ClassInfo = ClassInfo(format: Format, contribs: seq<Contribution>)

  /** The classes, by identity. */
  type World = map<nat, ClassInfo>

  /** The compositions through which contributions are looked for in other classes. */
  predicate Inherits(c: Composition) {
    c == Incorporates || c == Implements || c == Extends
  }

  /**
   * The hierarchy is acyclic: every class reached through an inheriting
   * contribution has a smaller rank than the class that names it.
   */
  predicate Ranked(world: World, rank: map<nat, nat>) {
    && (forall id :: id in world ==> id in rank)
    && (forall id, i :: id in world && 0 <= i < |world[id].contribs| &&
          Inherits(world[id].contribs[i].comp) && world[id].contribs[i].target.Some? &&
          world[id].contribs[i].target.value in world
          ==> world[id].contribs[i].target.value in rank &&
              rank[world[id].contribs[i].target.value] < rank[id])
  }

  /** The class that the first Extends contribution names, if any. */
  function FirstExtends(cs: seq<Contribution>): (r: Option<Option<nat>>)
    ensures r.Some? ==> exists i :: 0 <= i < |cs| && cs[i].comp == Extends && cs[i].target == r.value
    ensures r.None? <==> forall i :: 0 <= i < |cs| ==> cs[i].comp != Extends
  {
    if cs == [] then None
    else if cs[0].comp == Extends then Some(cs[0].target)
    else
      var r := FirstExtends(cs[1..]);
      assert r.Some? ==> exists i :: 1 <= i < |cs| && cs[i].comp == Extends && cs[i].target == r.value by {
        if r.Some? {
          var i :| 0 <= i < |cs[1..]| && cs[1..][i].comp == Extends && cs[1..][i].target == r.value;
          assert cs[i + 1] == cs[1..][i];
        }
      }
      assert r.None? ==> forall i :: 1 <= i < |cs| ==> cs[i].comp != Extends by {
        if r.None? {
          forall i | 1 <= i < |cs|
            ensures cs[i].comp != Extends
          {
            assert cs[i] == cs[1..][i - 1];
          }
        }
      }
      r
  }

  /** The classes a class extends, nearest first, as far as the world describes them. */
  function Supers(world: World, cur: nat, rank: map<nat, nat>): seq<Option<nat>>
    requires Ranked(world, rank) && cur in world
    decreases rank[cur]
  {
    match FirstExtends(world[cur].contribs)
    case None => []
    case Some(s) =>
      if s.Some? && s.value in world then
        ExtendsRanked(world, rank, cur);
        [s] + Supers(world, s.value, rank)
      else [s]
  }

  lemma ExtendsRanked(world: World, rank: map<nat, nat>, cur: nat)
    requires Ranked(world, rank) && cur in world
    requires var s := FirstExtends(world[cur].contribs); s.Some? && s.value.Some? && s.value.value in world
    ensures var s := FirstExtends(world[cur].contribs).value.value; s in rank && rank[s] < rank[cur]
  {
    var cs := world[cur].contribs;
    var s := FirstExtends(cs).value;
    var i :| 0 <= i < |cs| && cs[i].comp == Extends && cs[i].target == s;
    assert Inherits(cs[i].comp);
  }

  /**
   * The loop of `extendsClass` from `cur`: follow the first Extends of each
   * class; the target found is a match, a class missing in the world (or a
   * contribution without a type) fails, and a class without Extends ends
   * the search.
   */
  function Walk(world: World, cur: nat, target: nat, rank: map<nat, nat>): (r: Result<bool>)
    requires Ranked(world, rank) && cur in world
    ensures r == Ok(true) <==> Some(target) in Supers(world, cur, rank)
    decreases rank[cur]
  {
    match FirstExtends(world[cur].contribs)
    case None => Ok(false)
    case Some(s) =>
      if s.None? then Err(NullPointer)
      else if s.value == target then Ok(true)
      else if s.value !in world then Err(NullPointer)
      else
        ExtendsRanked(world, rank, cur);
        Walk(world, s.value, target, rank)
  }

  /** `extendsClass`: Object is extended by all; an interface extends nothing else; a class "extends" itself. */
  function ExtendsClass(world: World, self: nat, target: nat, objectId: nat, rank: map<nat, nat>): (r: Result<bool>)
    requires Ranked(world, rank) && self in world
    ensures r == Ok(true) <==>
              target == objectId ||
              (world[self].format != Interface && (target == self || Some(target) in Supers(world, self, rank)))
    ensures target != objectId && world[self].format == Interface ==> r == Ok(false)
  {
    if target == objectId then Ok(true)
    else if world[self].format == Interface then Ok(false)
    else if target == self then Ok(true)
    else Walk(world, self, target, rank)
  }

  /**
   * The walk agrees with the chain of supers: it finds the target exactly
   * when the target is among the supers; otherwise it fails exactly when
   * the chain ends at a missing class.
   */
  lemma {:induction false} WalkAgrees(world: World, cur: nat, target: nat, rank: map<nat, nat>)
    requires Ranked(world, rank) && cur in world
    ensures var ss := Supers(world, cur, rank);
            && (Walk(world, cur, target, rank) == Ok(true) <==> Some(target) in ss)
            && (Walk(world, cur, target, rank).Err? <==>
                  Some(target) !in ss && |ss| > 0 && (ss[|ss| - 1].None? || ss[|ss| - 1].value !in world))
    decreases rank[cur]
  {
    match FirstExtends(world[cur].contribs)
    case None =>
    case Some(s) =>
      if s.Some? && s.value in world {
        ExtendsRanked(world, rank, cur);
        WalkAgrees(world, s.value, target, rank);
        var rest := Supers(world, s.value, rank);
        assert Supers(world, cur, rank) == [s] + rest;
        if rest != [] {
          assert ([s] + rest)[|[s] + rest| - 1] == rest[|rest| - 1];
        }
      }
  }

  /** A class with no Extends contribution extends only Object and itself. */
  lemma NoExtendsExtendsNothing(world: World, self: nat, target: nat, objectId: nat, rank: map<nat, nat>)
    requires Ranked(world, rank) && self in world
    requires forall i :: 0 <= i < |world[self].contribs| ==> world[self].contribs[i].comp != Extends
    ensures ExtendsClass(world, self, target, objectId, rank) == Ok(target == objectId || (target == self && world[self].format != Interface))
  {
    assert FirstExtends(world[self].contribs).None?;
  }

  /** Extending is transitive along the first Extends: what the super extends (found by the walk), the class extends too. */
  lemma WalkThroughSuper(world: World, cur: nat, target: nat, rank: map<nat, nat>)
    requires Ranked(world, rank) && cur in world
    requires var s := FirstExtends(world[cur].contribs); s.Some? && s.value.Some? && s.value.value in world
    requires Walk(world, FirstExtends(world[cur].contribs).value.value, target, rank) == Ok(true)
    ensures Walk(world, cur, target, rank) == Ok(true)
  {
    ExtendsRanked(world, rank, cur);
  }

  // ----- finding a contribution -----

  /** The synthetic contribution that answers a search for Object. */
  function ContributionOfObject(objectId: nat): Contribution {
    Contribution(Extends, Some(objectId))
  }

  /**
   * `findContribution` on a class: Object is found as a synthetic Extends,
   * the class itself as Equal; otherwise its contributions are searched.
   */
  function FindContribution(world: World, self: nat, id: nat, objectId: nat, rank: map<nat, nat>): (r: Result<Option<Contribution>>)
    requires Ranked(world, rank) && self in world
    ensures id == objectId ==> r == Ok(Some(ContributionOfObject(objectId)))
    ensures id != objectId && id == self ==> r == Ok(Some(Contribution(Equal, None)))
    ensures id != objectId && id != self && r.Ok? && r.value.Some? ==> r.value.value.target == Some(id)
    decreases rank[self], |world[self].contribs| + 1
  {
    if id == objectId then Ok(Some(ContributionOfObject(objectId)))
    else if id == self then Ok(Some(Contribution(Equal, None)))
    else FindIn(world, self, 0, id, objectId, rank)
  }

  /**
   * The loop of `findContribution` from the i-th contribution: a
   * contribution defined by the constant is the answer; an inheriting one
   * is searched in turn, and the first match wins; annotations,
   * delegations, "into", enumerations and impersonations are skipped, and
   * any other composition fails.
   */
  function FindIn(world: World, self: nat, i: nat, id: nat, objectId: nat, rank: map<nat, nat>): (r: Result<Option<Contribution>>)
    requires Ranked(world, rank) && self in world && i <= |world[self].contribs|
    ensures r.Ok? && r.value.Some? ==> r.value.value.target == Some(id)
    ensures r.Err? ==> r.fault in {NullPointer, IllegalState}
    decreases rank[self], |world[self].contribs| - i
  {
    var cs := world[self].contribs;
    if i == |cs| then Ok(None)
    else
      var c := cs[i];
      if c.target.None? then Err(NullPointer)
      else if c.target.value == id then Ok(Some(c))
      else if Skipped(c.comp) then FindIn(world, self, i + 1, id, objectId, rank)
      else if Inherits(c.comp) then
        if c.target.value !in world then Err(NullPointer)
        else
          assert Inherits(cs[i].comp);
          match FindContribution(world, c.target.value, id, objectId, rank)
          case Err(f) => Err(f)
          case Ok(found) => if found.Some? then Ok(found) else FindIn(world, self, i + 1, id, objectId, rank)
      else Err(IllegalState)
  }

  /**
   * What a search from the i-th contribution finds is a contribution,
   * defined by the constant sought, of the class itself or of a class it
   * reached through an inheriting contribution from the i-th on.
   */
  lemma {:induction false} FindInSound(world: World, self: nat, i: nat, id: nat, objectId: nat, rank: map<nat, nat>)
    requires Ranked(world, rank) && self in world && i <= |world[self].contribs|
    requires id != objectId
    ensures var r := FindIn(world, self, i, id, objectId, rank);
            r.Ok? && r.value.Some? ==>
              r.value.value.target == Some(id) &&
              exists x, k :: (x == self || x in HierarchyFrom(world, self, i, rank)) &&
                             0 <= k < |world[x].contribs| && world[x].contribs[k] == r.value.value
    decreases rank[self], |world[self].contribs| - i
  {
    var cs := world[self].contribs;
    var r := FindIn(world, self, i, id, objectId, rank);
    if i < |cs| && r.Ok? && r.value.Some? {
      var c := cs[i];
      var rest := HierarchyFrom(world, self, i + 1, rank);
      if c.target.value == id {
        assert cs[i] == r.value.value;
      } else if Skipped(c.comp) {
        FindInSound(world, self, i + 1, id, objectId, rank);
        var x, k :| (x == self || x in rest) && 0 <= k < |world[x].contribs| && world[x].contribs[k] == r.value.value;
        assert x == self || x in HierarchyFrom(world, self, i, rank);
      } else {
        assert Inherits(cs[i].comp);
        var t := c.target.value;
        if FindContribution(world, t, id, objectId, rank).value.Some? {
          FindInSound(world, t, 0, id, objectId, rank);
          var x, k :| (x == t || x in HierarchyFrom(world, t, 0, rank)) && 0 <= k < |world[x].contribs| && world[x].contribs[k] == r.value.value;
          assert x in Hierarchy(world, t, rank);
          assert x in HierarchyFrom(world, self, i, rank);
        } else {
          FindInSound(world, self, i + 1, id, objectId, rank);
          var x, k :| (x == self || x in rest) && 0 <= k < |world[x].contribs| && world[x].contribs[k] == r.value.value;
          assert x == self || x in HierarchyFrom(world, self, i, rank);
        }
      }
    }
  }

  /**
   * A contribution found for a constant other than Object and the class
   * itself is defined by that constant and belongs to a class of the
   * hierarchy.
   */
  lemma FindContributionSound(world: World, self: nat, id: nat, objectId: nat, rank: map<nat, nat>)
    requires Ranked(world, rank) && self in world && id != objectId && id != self
    ensures var r := FindContribution(world, self, id, objectId, rank);
            r.Ok? && r.value.Some? ==>
              r.value.value.target == Some(id) &&
              exists x, k :: x in Hierarchy(world, self, rank) &&
                             0 <= k < |world[x].contribs| && world[x].contribs[k] == r.value.value
  {
    FindInSound(world, self, 0, id, objectId, rank);
  }

  /** A first contribution defined by the constant is the answer. */
  lemma FindFirstDirect(world: World, self: nat, id: nat, objectId: nat, rank: map<nat, nat>)
    requires Ranked(world, rank) && self in world && id != objectId && id != self
    requires |world[self].contribs| > 0 && world[self].contribs[0].target == Some(id)
    ensures FindContribution(world, self, id, objectId, rank) == Ok(Some(world[self].contribs[0]))
  {
  }

  /** A class without contributions finds only Object and itself. */
  lemma FindInBareClass(world: World, self: nat, id: nat, objectId: nat, rank: map<nat, nat>)
    requires Ranked(world, rank) && self in world && world[self].contribs == []
    ensures FindContribution(world, self, id, objectId, rank) ==
              if id == objectId then Ok(Some(ContributionOfObject(objectId)))
              else if id == self then Ok(Some(Contribution(Equal, None)))
              else Ok(None)
  {
  }

  /** The compositions a search skips. */
  predicate Skipped(c: Composition) {
    c in {Annotation, Delegates, Into, Enumerates, Impersonates}
  }

  /**
   * The classes a search from `t` looks into: `t` itself and, through each
   * inheriting contribution naming a class of the world, that class's own
   * hierarchy.
   */
  function Hierarchy(world: World, t: nat, rank: map<nat, nat>): (h: set<nat>)
    requires Ranked(world, rank) && t in world
    ensures t in h && forall x :: x in h ==> x in world
    decreases rank[t], |world[t].contribs| + 1
  {
    {t} + HierarchyFrom(world, t, 0, rank)
  }

  /** The classes reached through the inheriting contributions of `t` from the i-th on. */
  function HierarchyFrom(world: World, t: nat, i: nat, rank: map<nat, nat>): (h: set<nat>)
    requires Ranked(world, rank) && t in world && i <= |world[t].contribs|
    ensures forall x :: x in h ==> x in world
    decreases rank[t], |world[t].contribs| - i
  {
    var cs := world[t].contribs;
    if i == |cs| then {}
    else
      var c := cs[i];
      var rest := HierarchyFrom(world, t, i + 1, rank);
      if Inherits(c.comp) && c.target.Some? && c.target.value in world then
        assert Inherits(cs[i].comp);
        Hierarchy(world, c.target.value, rank) + rest
      else rest
  }

  /** No contribution of class `x` is defined by `id`. */
  predicate NoneTargets(world: World, x: nat, id: nat)
    requires x in world
  {
    forall k :: 0 <= k < |world[x].contribs| ==> world[x].contribs[k].target != Some(id)
  }

  /**
   * A search from the i-th contribution that finds nothing has met no
   * contribution defined by `id`, neither among the class's own from the
   * i-th on nor in any class it reached through an inheriting one, and none
   * of those classes is `id` itself.
   */
  lemma {:induction false} FindInComplete(world: World, self: nat, i: nat, id: nat, objectId: nat, rank: map<nat, nat>)
    requires Ranked(world, rank) && self in world && i <= |world[self].contribs|
    requires FindIn(world, self, i, id, objectId, rank) == Ok(None)
    ensures forall k :: i <= k < |world[self].contribs| ==> world[self].contribs[k].target != Some(id)
    ensures forall x :: x in HierarchyFrom(world, self, i, rank) ==> x != id && NoneTargets(world, x, id)
    decreases rank[self], |world[self].contribs| - i
  {
    var cs := world[self].contribs;
    if i < |cs| {
      var c := cs[i];
      FindInRest(world, self, i, id, objectId, rank);
      FindInComplete(world, self, i + 1, id, objectId, rank);
      if Inherits(c.comp) {
        assert Inherits(cs[i].comp);
        FindContributionComplete(world, c.target.value, id, objectId, rank);
      }
    }
  }

  /** One step of a search that finds nothing: the i-th contribution is passed over and the rest finds nothing. */
  lemma FindInRest(world: World, self: nat, i: nat, id: nat, objectId: nat, rank: map<nat, nat>)
    requires Ranked(world, rank) && self in world && i < |world[self].contribs|
    requires FindIn(world, self, i, id, objectId, rank) == Ok(None)
    ensures var c := world[self].contribs[i];
            && c.target.Some? && c.target.value != id && (Skipped(c.comp) || Inherits(c.comp))
            && FindIn(world, self, i + 1, id, objectId, rank) == Ok(None)
            && (Inherits(c.comp) ==> c.target.value in world &&
                                     FindContribution(world, c.target.value, id, objectId, rank) == Ok(None))
  {
    assert Inherits(world[self].contribs[i].comp) ==> Inherits(world[self].contribs[i].comp);
  }

  /**
   * `findContribution` answers null only when the constant is neither
   * Object nor any class of the hierarchy, and no class of the hierarchy
   * has a contribution defined by it.
   */
  lemma {:induction false} FindContributionComplete(world: World, self: nat, id: nat, objectId: nat, rank: map<nat, nat>)
    requires Ranked(world, rank) && self in world
    requires FindContribution(world, self, id, objectId, rank) == Ok(None)
    ensures id != objectId
    ensures forall x :: x in Hierarchy(world, self, rank) ==> x != id && NoneTargets(world, x, id)
    decreases rank[self], |world[self].contribs| + 1
  {
    FindInComplete(world, self, 0, id, objectId, rank);
  }

  /**
   * The first match wins: when every contribution before the k-th is
   * skipped or leads to a search that finds nothing, and the k-th is defined
   * by the constant, the search from the i-th answers the k-th.
   */
  lemma {:induction false} FindFirstMatch(world: World, self: nat, i: nat, k: nat, id: nat, objectId: nat, rank: map<nat, nat>)
    requires Ranked(world, rank) && self in world && i <= k < |world[self].contribs|
    requires world[self].contribs[k].target == Some(id)
    requires forall j :: i <= j < k ==>
               var c := world[self].contribs[j];
               c.target.Some? && c.target.value != id &&
               (Skipped(c.comp) ||
                (Inherits(c.comp) && c.target.value in world &&
                 FindContribution(world, c.target.value, id, objectId, rank) == Ok(None)))
    ensures FindIn(world, self, i, id, objectId, rank) == Ok(Some(world[self].contribs[k]))
    decreases k - i
  {
    if i < k {
      FindFirstMatch(world, self, i + 1, k, id, objectId, rank);
      var c := world[self].contribs[i];
      assert c.target.Some? && c.target.value != id;
      if Inherits(c.comp) {
        assert Inherits(world[self].contribs[i].comp);
      }
    }
  }

  // ----- type parameters -----

  /** An ordered map of type parameters: name to type. */
  type Params = seq<(string, nat)>

  predicate NamesDistinct(ps: Params) {
    forall i, j :: 0 <= i < j < |ps| ==> ps[i].0 != ps[j].0
  }

  /** The position of a name, or -1. */
  function IndexOfName(ps: Params, name: string): (r: int)
    ensures -1 <= r < |ps|
    ensures r >= 0 ==> ps[r].0 == name
    ensures r == -1 <==> forall i :: 0 <= i < |ps| ==> ps[i].0 != name
  {
    if ps == [] then -1
    else if ps[|ps| - 1].0 == name && IndexOfName(ps[..|ps| - 1], name) == -1 then |ps| - 1
    else IndexOfName(ps[..|ps| - 1], name)
  }

  /** An ordered put: a known name keeps its place with the new type; a new one is added at the end. */
  function Put(ps: Params, name: string, t: nat): (r: Params)
    ensures (name, t) in r
    ensures |r| == |ps| + (if IndexOfName(ps, name) >= 0 then 0 else 1)
    ensures forall i :: 0 <= i < |ps| && ps[i].0 != name ==> r[i] == ps[i]
  {
    var k := IndexOfName(ps, name);
    if k >= 0 then assert ps[k := (name, t)][k] == (name, t); ps[k := (name, t)]
    else assert (ps + [(name, t)])[|ps|] == (name, t); ps + [(name, t)]
  }

  /** The parameters as a map. */
  function AsMap(ps: Params): map<string, nat> {
    if ps == [] then map[] else AsMap(ps[..|ps| - 1])[ps[|ps| - 1].0 := ps[|ps| - 1].1]
  }

  lemma {:induction false} AsMapDomain(ps: Params, name: string)
    ensures name in AsMap(ps) <==> IndexOfName(ps, name) >= 0
  {
    if ps != [] {
      AsMapDomain(ps[..|ps| - 1], name);
    }
  }

  /**
   * What `addTypeParam` promises: the name maps to the type, every other
   * name keeps its type and its place, the names stay distinct, and the
   * list grows exactly when the name is new.
   */
  lemma PutOutcome(ps: Params, name: string, t: nat)
    requires NamesDistinct(ps)
    ensures var r := Put(ps, name, t);
            && NamesDistinct(r)
            && AsMap(r) == AsMap(ps)[name := t]
            && |r| == |ps| + (if IndexOfName(ps, name) >= 0 then 0 else 1)
            && forall i :: 0 <= i < |ps| && ps[i].0 != name ==> r[i] == ps[i]
  {
    var k := IndexOfName(ps, name);
    if k >= 0 {
      AsMapUpdate(ps, k, t);
    } else {
      assert (ps + [(name, t)])[..|ps|] == ps;
    }
  }

  /** Replacing the type of a name that occurs once updates the map at that name. */
  lemma {:induction false} AsMapUpdate(ps: Params, k: nat, t: nat)
    requires NamesDistinct(ps) && k < |ps|
    ensures AsMap(ps[k := (ps[k].0, t)]) == AsMap(ps)[ps[k].0 := t]
  {
    var n := |ps| - 1;
    var p := ps[..n];
    var q := ps[k := (ps[k].0, t)];
    assert q[..n] == if k == n then p else p[k := (ps[k].0, t)];
    assert NamesDistinct(p) by {
      forall i, j | 0 <= i < j < |p|
        ensures p[i].0 != p[j].0
      {
        assert p[i] == ps[i] && p[j] == ps[j];
      }
    }
    if k < n {
      AsMapUpdate(p, k, t);
      assert ps[n].0 != ps[k].0;
    }
  }

  /** `equals` on type parameters: the same count, and the same maps when not empty; a missing map counts as empty. */
  predicate ParamsEqual(a: Option<Params>, b: Option<Params>) {
    var ca := if a.None? then 0 else |a.value|;
    var cb := if b.None? then 0 else |b.value|;
    ca == cb && (ca > 0 ==> AsMap(a.value) == AsMap(b.value))
  }

  /** `equals` on class structures, given whether the component parts are equal. */
  function ClassEquals(componentsEqual: bool, a: Option<Params>, b: Option<Params>): (r: bool)
    ensures r ==> componentsEqual
    ensures r ==> (a.None? || a.value == []) == (b.None? || b.value == [])
    ensures componentsEqual && (a.None? || a.value == []) && (b.None? || b.value == []) ==> r
  {
    componentsEqual && ParamsEqual(a, b)
  }

  /**
   * Type-parameter equality ignores order and tells a missing map from an
   * empty one by nothing; it is an equivalence.
   */
  lemma ParamsEqualProperties(a: Option<Params>, b: Option<Params>, c: Option<Params>)
    ensures ParamsEqual(None, Some([]))
    ensures ParamsEqual(a, a)
    ensures ParamsEqual(a, b) ==> ParamsEqual(b, a)
    ensures ParamsEqual(a, b) && ParamsEqual(b, c) ==> ParamsEqual(a, c)
  {
  }

  /** Two orders of the same parameters are equal. */
  lemma ParamsEqualIgnoresOrder(x: (string, nat), y: (string, nat))
    requires x.0 != y.0
    ensures ParamsEqual(Some([x, y]), Some([y, x]))
  {
    assert [x, y][..1] == [x] && [y, x][..1] == [y];
  }

  /** A class structure whose type parameters are added in place. */
  class ClassStructure {
    const id: nat
    const format: Format
    var params: Option<Params>
    var modified: bool

    constructor (id: nat, format: Format)
      ensures this.id == id && this.format == format && params.None? && !modified
    {
      this.id := id;
      this.format := format;
      params, modified := None, false;
    }

    /** `addTypeParam`: create the map when missing, put the entry, and mark the structure modified. */
    method AddTypeParam(name: string, t: nat)
      modifies this`params, this`modified
      ensures params == Some(Put(if old(params).None? then [] else old(params).value, name, t))
      ensures modified
    {
      var ps := if params.None? then [] else params.value;
      params := Some(Put(ps, name, t));
      modified := true;
    }

    /** `extendsClass`, with the loop over the supers. */
    method ExtendsClassOf(world: World, target: nat, objectId: nat, ghost rank: map<nat, nat>) returns (r: Result<bool>)
      requires Ranked(world, rank) && id in world && world[id].format == format
      ensures r == ExtendsClass(world, id, target, objectId, rank)
    {
      if target == objectId {
        return Ok(true);
      }
      if format == Interface {
        return Ok(false);
      }
      if target == id {
        return Ok(true);
      }
      var cur := id;
      while true
        invariant cur in world
        invariant Walk(world, cur, target, rank) == ExtendsClass(world, id, target, objectId, rank)
        decreases rank[cur]
      {
        var s := FirstExtendsOf(world[cur].contribs);
        if s.None? {
          return Ok(false);
        }
        var sup := s.value;
        if sup.None? {
          return Err(NullPointer);
        }
        if sup.value == target {
          return Ok(true);
        }
        if sup.value !in world {
          return Err(NullPointer);
        }
        ExtendsRanked(world, rank, cur);
        cur := sup.value;
      }
    }
  }

  /** The inner loop of `extendsClass`: the first Extends contribution of a class. */
  method FirstExtendsOf(cs: seq<Contribution>) returns (r: Option<Option<nat>>)
    ensures r == FirstExtends(cs)
  {
    for i := 0 to |cs|
      invariant FirstExtends(cs) == FirstExtends(cs[i..])
    {
      assert cs[i..][1..] == cs[i + 1..];
      if cs[i].comp == Extends {
        return Some(cs[i].target);
      }
    }
    assert cs[|cs|..] == [];
    r := None;
  }
}
