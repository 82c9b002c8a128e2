/**
 * The runtime's constant cache: `ObjectHeap.ensureConstHandle` turns a
 * constant of the pool into an object handle, caching the handles of
 * cacheable constants first-writer-wins, and `getConstType` says which
 * template makes the handle of a constant of each format.
 */
module Heap {
  import opened Base
  import opened Protocol

  /** The formats of pool constants that `getConstType` distinguishes. */
  datatype Format =
    | Char | String | IntLiteral | Bit | Nibble
    | Int8 | Int16 | Int32 | Int64 | Int128 | VarInt
    | UInt8 | UInt16 | UInt32 | UInt64 | UInt128 | VarUInt
    | FPLiteral | BFloat16 | Float16 | Float32 | Float64 | Float128 | VarFloat
    | Dec32 | Dec64 | Dec128 | VarDec
    | Array | UInt8Array | Tuple | Path | FileStore | FSDir | FSFile
    | Date | Time | DateTime | Duration | Range | Version | Module
    | Map | Set | MapEntry | Package | Class | PropertyClassType | Method
    | AnnotatedType | ParameterizedType | TerminalType | ImmutableType | AccessType
    | UnionType | IntersectionType | DifferenceType
    | MultiMethod | Typedef | TypeParameter | Signature | ThisClass | ParentClass | ChildClass
    | OtherFormat

  /** The formats whose constants know their own type. */
  predicate OwnTyped(f: Format) {
    f in {Char, String, IntLiteral, Bit, Nibble, Int8, Int16, Int32, Int64, Int128, VarInt,
          UInt8, UInt16, UInt32, UInt64, UInt128, VarUInt,
          FPLiteral, BFloat16, Float16, Float32, Float64, Float128, VarFloat,
          Dec32, Dec64, Dec128, VarDec, Array, UInt8Array, Tuple, Path, FileStore, FSDir, FSFile,
          Date, Time, DateTime, Duration, Range, Version, Module}
  }

  /** The formats of types, whose constants are made by the reflective type template. */
  predicate TypeFormat(f: Format) {
    f in {AnnotatedType, ParameterizedType, TerminalType, ImmutableType, AccessType,
          UnionType, IntersectionType, DifferenceType}
  }

  /** The formats not supported yet. */
  predicate Unfinished(f: Format) { f in {Set, MapEntry, Package} }

  /**
   * A pool constant as the cache sees it: a register reference, a singleton,
   * a property (for the "local property" mode) or a value constant of some
   * format; `function` says whether a method constant names a function.
   */
  datatype Const =
    | RegisterC(reg: nat)
    | SingletonC(singleton: nat)
    | PropertyC(prop: nat, isStatic: bool)
    | ValueC(id: nat, format: Format, cacheable: bool, isFunction: bool)

  /** The type `getConstType` gives: the constant's own type, the `Class` type or a named Ecstasy type. */
  datatype ConstType = OwnType | ClassType | EcstasyType(name: string)

  /**
   * `getConstType`: a total table over formats.  Value formats have their
   * own type, maps are made as `collections.ListMap`, classes have the
   * `Class` type, reflective formats have their `_native.reflect` type; sets,
   * map entries and packages are not supported and every other format is
   * illegal.
   */
  function GetConstType(f: Format, isFunction: bool): (r: Result<ConstType>)
    ensures r == Ok(OwnType) <==> OwnTyped(f)
    ensures r == Ok(ClassType) <==> f == Class
    ensures r == Err(Unsupported) <==> Unfinished(f)
    ensures r.Ok? && r.value.EcstasyType? <==> f in {Map, PropertyClassType, Method} || TypeFormat(f)
    ensures r.Err? ==> r.fault in {Unsupported, IllegalState}
    ensures f == Method ==> r == Ok(EcstasyType(if isFunction then "_native.reflect.RTFunction" else "_native.reflect.RTMethod"))
    ensures TypeFormat(f) ==> r == Ok(EcstasyType("_native.reflect.RTType"))
  {
    if OwnTyped(f) then Ok(OwnType)
    else match f
      case Map => Ok(EcstasyType("collections.ListMap"))
      case Set => Err(Unsupported)
      case MapEntry => Err(Unsupported)
      case Package => Err(Unsupported)
      case Class => Ok(ClassType)
      case PropertyClassType => Ok(EcstasyType("_native.reflect.RTProperty"))
      case Method => Ok(EcstasyType(if isFunction then "_native.reflect.RTFunction" else "_native.reflect.RTMethod"))
      case _ => if TypeFormat(f) then Ok(EcstasyType("_native.reflect.RTType")) else Err(IllegalState)
  }

  /**
   * What a template's `createConstHandle` answered: R_NEXT with the value on
   * the stack, R_CALL into a callee frame, R_EXCEPTION with the exception, or
   * another code.
   */
  datatype Created = MadeNext(value: Handle) | MadeCall(callee: nat) | MadeException(exc: ExcId) | MadeOther

  /** The unseen behaviour the cache depends on: the frame's registers, singletons and templates. */
  datatype HeapEnv = HeapEnv(
    arg: nat -> Fetch,
    singletonHandle: nat -> Option<Handle>,
    create: (ConstType, Const) -> Created)

  /**
   * The answer of `ensureConstHandle`: the handle (none for a register whose
   * value is not there yet) and whether the callee frame was given the
   * continuation that caches the value it returns.
   */
  datatype Ensured = Ensured(h: Option<Handle>, cachesOnReturn: bool)

  /** `putIfAbsent`: an existing entry wins. */
  function Save(cache: map<Const, Handle>, c: Const, h: Handle): (r: (Handle, map<Const, Handle>))
    ensures c in cache ==> r == (cache[c], cache)
    ensures c !in cache ==> r == (h, cache[c := h])
  {
    if c in cache then (cache[c], cache) else (h, cache[c := h])
  }

  /** `ensureConstHandle`, on the cache as a value: the answer and the new cache. */
  function Ensure(cache: map<Const, Handle>, c: Const, env: HeapEnv): (r: (Result<Ensured>, map<Const, Handle>))
    ensures forall k :: k in cache ==> k in r.1 && r.1[k] == cache[k]
    ensures forall k :: k in r.1 && k !in cache ==> k == c
    ensures !c.RegisterC? && c in cache ==> r == (Ok(Ensured(Some(cache[c]), false)), cache)
    ensures r.0.Ok? && r.0.value.cachesOnReturn ==> r.1 == cache
  {
    if c.RegisterC? then
      (match env.arg(c.reg)
       case Unavailable => (Ok(Ensured(None, false)), cache)
       case Thrown(e) => (Ok(Ensured(Some(DeferredException(e)), false)), cache)
       case Got(h) => (Ok(Ensured(Some(h), false)), cache))
    else if c in cache then (Ok(Ensured(Some(cache[c]), false)), cache)
    else match c
        case SingletonC(s) =>
          if env.singletonHandle(s).None? then (Ok(Ensured(Some(DeferredSingleton(s)), false)), cache)
          else
            var saved := Save(cache, c, env.singletonHandle(s).value);
            (Ok(Ensured(Some(saved.0), false)), saved.1)
        case PropertyC(p, isStatic) =>
          if isStatic then (Err(IllegalState), cache)
          else
            var saved := Save(cache, c, DeferredProperty(p));
            (Ok(Ensured(Some(saved.0), false)), saved.1)
        case ValueC(_, format, cacheable, isFunction) =>
          (match GetConstType(format, isFunction)
           case Err(x) => (Err(x), cache)
           case Ok(t) =>
             (match env.create(t, c)
              case MadeNext(h) =>
                if cacheable then
                  var saved := Save(cache, c, h);
                  (Ok(Ensured(Some(saved.0), false)), saved.1)
                else (Ok(Ensured(Some(h), false)), cache)
              case MadeCall(callee) => (Ok(Ensured(Some(DeferredCall(callee)), cacheable)), cache)
              case MadeException(e) => (Ok(Ensured(Some(DeferredException(e)), false)), cache)
              case MadeOther => (Err(IllegalState), cache)))
  }

  /**
   * The cache only grows, and only by the constant asked for; a register is
   * never cached, and neither is a singleton still without a handle.
   */
  lemma EnsureGrowsCache(cache: map<Const, Handle>, c: Const, env: HeapEnv)
    ensures var r := Ensure(cache, c, env);
            forall k :: k in cache ==> k in r.1 && r.1[k] == cache[k]
    ensures var r := Ensure(cache, c, env);
            forall k :: k in r.1 && k !in cache ==> k == c
    ensures c.RegisterC? ==> Ensure(cache, c, env).1 == cache
    ensures c.SingletonC? && env.singletonHandle(c.singleton).None? ==> Ensure(cache, c, env).1 == cache
  {
  }

  /** A cache hit answers the cached handle whatever the templates and singletons say. */
  lemma CacheHit(cache: map<Const, Handle>, c: Const, env: HeapEnv, env2: HeapEnv)
    requires !c.RegisterC? && c in cache
    ensures Ensure(cache, c, env) == (Ok(Ensured(Some(cache[c]), false)), cache)
    ensures Ensure(cache, c, env) == Ensure(cache, c, env2)
  {
  }

  /**
   * Once a constant is cached, asking again gives the same handle, even when
   * the template would now make another one: the first writer wins.
   */
  lemma EnsureStable(cache: map<Const, Handle>, c: Const, env: HeapEnv, env2: HeapEnv)
    requires !c.RegisterC? && c in Ensure(cache, c, env).1
    ensures Ensure(cache, c, env).0.Ok? && Ensure(cache, c, env).0.value.h.Some?
    ensures var r := Ensure(cache, c, env);
            Ensure(r.1, c, env2) == (Ok(Ensured(Some(r.1[c]), false)), r.1)
    ensures var r := Ensure(cache, c, env);
            r.0.value.h.value == r.1[c]
  {
    var r := Ensure(cache, c, env);
    EnsureGrowsCache(cache, c, env);
    CacheHit(r.1, c, env2, env2);
  }

  /** A cacheable value made at once is cached; one that is not cacheable never is. */
  lemma CachedIffCacheable(cache: map<Const, Handle>, c: Const, env: HeapEnv)
    requires c.ValueC? && c !in cache
    ensures c in Ensure(cache, c, env).1 <==>
              c.cacheable && GetConstType(c.format, c.isFunction).Ok? &&
              env.create(GetConstType(c.format, c.isFunction).value, c).MadeNext?
  {
  }

  /** The runtime heap: the cache of constant handles. */
  class ObjectHeap {
    var constants: map<Const, Handle>

    constructor ()
      ensures constants == map[]
    {
      constants := map[];
    }

    /** `saveConstHandle`: store a handle unless one is there already; answer the stored one. */
    method SaveConstHandle(c: Const, h: Handle) returns (r: Handle)
      modifies this`constants
      ensures (r, constants) == Save(old(constants), c, h)
      ensures c in constants && constants[c] == r
      ensures old(c in constants) ==> r == old(constants[c]) && constants == old(constants)
    {
      if c in constants {
        r := constants[c];
      } else {
        constants := constants[c := h];
        r := h;
      }
    }

    /** `ensureConstHandle`: the handle of a constant, from the cache when it is there. */
    method EnsureConstHandle(c: Const, env: HeapEnv) returns (r: Result<Ensured>)
      modifies this`constants
      ensures (r, constants) == Ensure(old(constants), c, env)
    {
      if c.RegisterC? {
        match env.arg(c.reg)
        case Unavailable => return Ok(Ensured(None, false));
        case Thrown(e) => return Ok(Ensured(Some(DeferredException(e)), false));
        case Got(h) => return Ok(Ensured(Some(h), false));
      }
      if c in constants {
        return Ok(Ensured(Some(constants[c]), false));
      }
      match c
      case SingletonC(s) =>
        var h := env.singletonHandle(s);
        if h.None? {
          return Ok(Ensured(Some(DeferredSingleton(s)), false));
        }
        var saved := SaveConstHandle(c, h.value);
        return Ok(Ensured(Some(saved), false));
      case PropertyC(p, isStatic) =>
        if isStatic {
          return Err(IllegalState);
        }
        var saved := SaveConstHandle(c, DeferredProperty(p));
        return Ok(Ensured(Some(saved), false));
      case ValueC(_, format, cacheable, isFunction) =>
        var t := GetConstType(format, isFunction);
        if t.Err? {
          return Err(t.fault);
        }
        match env.create(t.value, c)
        case MadeNext(h) =>
          if cacheable {
            var saved := SaveConstHandle(c, h);
            return Ok(Ensured(Some(saved), false));
          }
          return Ok(Ensured(Some(h), false));
        case MadeCall(callee) =>
          return Ok(Ensured(Some(DeferredCall(callee)), cacheable));
        case MadeException(e) =>
          return Ok(Ensured(Some(DeferredException(e)), false));
        case MadeOther =>
          return Err(IllegalState);
    }

    /**
     * The continuation `ensureConstHandle` gives a cacheable constant's callee:
     * cache the value the callee left on the caller's stack, and go on.
     */
    method CacheOnReturn(c: Const, top: Handle) returns (code: Ctl)
      modifies this`constants
      ensures code == Next
      ensures constants == Save(old(constants), c, top).1
    {
      var saved := SaveConstHandle(c, top);
      code := Next;
    }
  }
}
