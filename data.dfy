/**
 * Object and graph helpers of src/data.ts.
 *
 * `copy` and `resetTo` change an existing object in place, so the object
 * they change is a `JsObject` whose property map the methods reassign.
 * The other helpers build new values and are modelled on `Value` trees.
 */
module Data {
  import opened Wrappers
  import opened Js

  /** A JavaScript object whose own enumerable properties are updated in place. */
  class JsObject {
    var props: map<string, Value>

    constructor (props: map<string, Value>)
      ensures this.props == props
    {
      this.props := props;
    }
  }

  // ---------------------------------------------------------------------
  // partialEqual
  // ---------------------------------------------------------------------

  /** Every property of `partial` reads the same on `source`. */
  predicate Agrees(source: map<string, Value>, partial: map<string, Value>) {
    forall k | k in partial :: Get(source, k) == partial[k]
  }

  /**
   * `partialEqual(source, partial)`: stops at the first property of
   * `partial` that `source` does not share.
   */
  method PartialEqual(source: map<string, Value>, partial: map<string, Value>) returns (r: bool)
    ensures r <==> Agrees(source, partial)
    ensures r <==> forall k | k in partial :: if k in source then source[k] == partial[k] else partial[k] == Undefined
  {
    var todo := partial.Keys;
    while todo != {}
      invariant todo <= partial.Keys
      invariant forall k | k in partial && k !in todo :: Get(source, k) == partial[k]
      decreases |todo|
    {
      var k :| k in todo;
      if Get(source, k) != partial[k] {
        return false;
      }
      todo := todo - {k};
    }
    return true;
  }

  /** An empty partial agrees with anything, and every object agrees with itself. */
  lemma AgreesTrivially(source: map<string, Value>)
    ensures Agrees(source, map[])
    ensures Agrees(source, source)
  {
  }

  /** Agreement carries over to any part of the partial. */
  lemma AgreesWithPart(source: map<string, Value>, partial: map<string, Value>, part: map<string, Value>)
    requires Agrees(source, partial)
    requires forall k | k in part :: k in partial && part[k] == partial[k]
    ensures Agrees(source, part)
  {
  }

  // ---------------------------------------------------------------------
  // copy
  // ---------------------------------------------------------------------

  /** A property survives the allow-list when the list is empty or names it. */
  predicate Allowed(onlyProperties: seq<string>, k: string) {
    |onlyProperties| == 0 || k in onlyProperties
  }

  /** The properties of `source` that `copy` transfers. */
  function Selected(source: map<string, Value>, onlyProperties: seq<string>): (r: map<string, Value>)
    ensures forall k :: k in r <==> k in source && Allowed(onlyProperties, k)
    ensures forall k | k in r :: r[k] == source[k]
  {
    map k | k in source && Allowed(onlyProperties, k) :: source[k]
  }

  /**
   * `copy(source, destination, ...onlyProperties)`: writes each allowed
   * property of `source` onto `destination` and returns `destination`.
   * Copying an object onto itself changes nothing.
   */
  method Copy(source: JsObject, destination: JsObject, onlyProperties: seq<string>) returns (r: JsObject)
    modifies destination
    ensures r == destination
    ensures destination.props == old(destination.props) + Selected(old(source.props), onlyProperties)
  {
    ghost var src := source.props;
    ghost var before := destination.props;
    var todo := source.props.Keys;
    while todo != {}
      invariant todo <= src.Keys
      invariant forall k | k in todo :: k in source.props && source.props[k] == src[k]
      invariant destination.props == before + CopiedSoFar(src, todo, onlyProperties)
      decreases |todo|
    {
      var k :| k in todo;
      CopiedSoFarStep(before, src, todo, k, onlyProperties);
      todo := todo - {k};
      if Allowed(onlyProperties, k) {
        destination.props := destination.props[k := source.props[k]];
      }
    }
    assert CopiedSoFar(src, {}, onlyProperties) == Selected(src, onlyProperties);
    return destination;
  }

  /** The allowed properties of `src` that the loop has visited, `todo` being those still to visit. */
  ghost function CopiedSoFar(src: map<string, Value>, todo: set<string>, onlyProperties: seq<string>): map<string, Value> {
    map k | k in src && k !in todo && Allowed(onlyProperties, k) :: src[k]
  }

  /** Visiting `k` adds it to the copied properties when it is allowed. */
  lemma CopiedSoFarStep(before: map<string, Value>, src: map<string, Value>, todo: set<string>, k: string, onlyProperties: seq<string>)
    requires k in todo && todo <= src.Keys
    ensures before + CopiedSoFar(src, todo - {k}, onlyProperties) ==
      if Allowed(onlyProperties, k) then (before + CopiedSoFar(src, todo, onlyProperties))[k := src[k]]
      else before + CopiedSoFar(src, todo, onlyProperties)
  {
  }

  /** After `copy`, the destination agrees with every copied property. */
  lemma CopyThenAgrees(destination: map<string, Value>, source: map<string, Value>, onlyProperties: seq<string>)
    ensures Agrees(destination + Selected(source, onlyProperties), Selected(source, onlyProperties))
    ensures |onlyProperties| == 0 ==> Agrees(destination + Selected(source, onlyProperties), source)
  {
  }

  // ---------------------------------------------------------------------
  // resetTo
  // ---------------------------------------------------------------------

  /**
   * `resetTo(objToReset, source)`: deletes every property of `objToReset`,
   * then writes each property of `source` onto it. Function values are
   * written as they are: the bound copy the loop makes is never used.
   * Resetting an object to itself leaves it empty, because the deletions
   * have already emptied `source` when the second loop starts.
   */
  method ResetTo(objToReset: JsObject, source: JsObject)
    modifies objToReset
    ensures objToReset.props == if objToReset == source then map[] else old(source.props)
  {
    var doomed := objToReset.props.Keys;
    while doomed != {}
      invariant objToReset.props.Keys == doomed
      invariant objToReset != source ==> source.props == old(source.props)
      decreases |doomed|
    {
      var o :| o in doomed;
      objToReset.props := objToReset.props - {o};
      doomed := doomed - {o};
    }
    assert objToReset.props == map[];
    ghost var src := source.props;
    var todo := source.props.Keys;
    while todo != {}
      invariant todo <= src.Keys
      invariant objToReset == source ==> todo == {}
      invariant objToReset != source ==> source.props == src
      invariant objToReset.props.Keys == src.Keys - todo
      invariant forall k | k in objToReset.props :: objToReset.props[k] == src[k]
      decreases |todo|
    {
      var o :| o in todo;
      todo := todo - {o};
      objToReset.props := objToReset.props[o := source.props[o]];
    }
  }

  // ---------------------------------------------------------------------
  // mergeOptions
  // ---------------------------------------------------------------------

  /** `options || {}`: an absent options object acts as an empty one. */
  function OptionsOrEmpty(options: Option<map<string, Value>>): map<string, Value> {
    if options.Some? then options.value else map[]
  }

  /**
   * What `mergeOptions(options, defaults)` returns: every property of
   * `options`, even one whose value is `undefined`, plus every property of
   * `defaults` that `options` lacks.
   */
  function Merged(options: Option<map<string, Value>>, defaults: map<string, Value>): (r: map<string, Value>)
    ensures r.Keys == OptionsOrEmpty(options).Keys + defaults.Keys
  {
    var base := OptionsOrEmpty(options);
    map k | k in base.Keys + defaults.Keys :: if k in base then base[k] else defaults[k]
  }

  /**
   * `mergeOptions(options, defaults)`: a fresh copy of `options`, filled in
   * from `defaults` key by key. `options` is a value here, so it cannot be
   * changed.
   */
  method MergeOptions(options: Option<map<string, Value>>, defaults: map<string, Value>) returns (ret: map<string, Value>)
    ensures ret == Merged(options, defaults)
    ensures forall k | k in OptionsOrEmpty(options) :: k in ret && ret[k] == OptionsOrEmpty(options)[k]
    ensures forall k | k in defaults && k !in OptionsOrEmpty(options) :: k in ret && ret[k] == defaults[k]
    ensures forall k | k in ret :: k in OptionsOrEmpty(options) || k in defaults
  {
    ret := OptionsOrEmpty(options);
    var todo := defaults.Keys;
    while todo != {}
      invariant todo <= defaults.Keys
      invariant forall k :: k in ret <==> k in OptionsOrEmpty(options) || (k in defaults && k !in todo)
      invariant forall k | k in ret :: ret[k] == Merged(options, defaults)[k]
      decreases |todo|
    {
      var k :| k in todo;
      todo := todo - {k};
      if k in ret {
        continue;
      }
      ret := ret[k := defaults[k]];
    }
  }

  /** Merging again with the same defaults changes nothing. */
  lemma MergedIdempotent(options: Option<map<string, Value>>, defaults: map<string, Value>)
    ensures Merged(Some(Merged(options, defaults)), defaults) == Merged(options, defaults)
  {
  }

  /** The merged options agree with the options; without options they are the defaults. */
  lemma MergedAgreesWithOptions(options: Option<map<string, Value>>, defaults: map<string, Value>)
    ensures Agrees(Merged(options, defaults), OptionsOrEmpty(options))
    ensures Merged(None, defaults) == defaults
  {
  }

  // ---------------------------------------------------------------------
  // copyWithFunctions
  // ---------------------------------------------------------------------

  /** A member that `copyWithFunctions` drops: a function, when removing them. */
  predicate Dropped(x: Value, removeFunctions: bool) {
    removeFunctions && x.Func?
  }

  /**
   * `copyWithFunctions(obj, removeFunctions)`: falsy values and scalars
   * come back as they are; arrays and objects are copied level by level,
   * their function members kept as they are or, with `removeFunctions`,
   * left out.
   */
  function DeepCopy(v: Value, removeFunctions: bool): (r: Value)
    ensures !v.Arr? && !v.Obj? ==> r == v
    ensures r.Arr? <==> v.Arr?
    ensures r.Obj? <==> v.Obj?
    ensures v.Arr? ==> |r.elems| <= |v.elems|
    ensures v.Arr? && !removeFunctions ==> |r.elems| == |v.elems|
    ensures v.Obj? ==> r.props.Keys <= v.props.Keys
    ensures v.Obj? && !removeFunctions ==> r.props.Keys == v.props.Keys
    decreases v, 2
  {
    if !Truthy(v) then v
    else match v
      case Arr(_) => Arr(CopyElems(v, removeFunctions, 0))
      case Obj(m) => Obj(map k | k in m && !Dropped(m[k], removeFunctions) :: CopyMember(m[k], removeFunctions))
      case _ => v
  }

  /** A kept member: a function as it is, anything else copied. */
  function CopyMember(x: Value, removeFunctions: bool): Value
    decreases x, 3
  {
    if x.Func? then x else DeepCopy(x, removeFunctions)
  }

  /** The copies of the elements of the array `v` from index `i` on, in order. */
  function CopyElems(v: Value, removeFunctions: bool, i: nat): (r: seq<Value>)
    requires v.Arr? && i <= |v.elems|
    ensures |r| <= |v.elems| - i
    ensures !removeFunctions ==> |r| == |v.elems| - i
    ensures removeFunctions ==> forall j | 0 <= j < |r| :: !r[j].Func?
    decreases v, 1, |v.elems| - i
  {
    if i == |v.elems| then []
    else
      var x := v.elems[i];
      (if Dropped(x, removeFunctions) then [] else [CopyMember(x, removeFunctions)])
      + CopyElems(v, removeFunctions, i + 1)
  }

  /** `copyWithFunctions`, which pushes element copies and assigns property copies in loops. */
  method CopyWithFunctions(obj: Value, removeFunctions: bool) returns (r: Value)
    ensures r == DeepCopy(obj, removeFunctions)
    decreases obj, 1
  {
    if !Truthy(obj) {
      return obj;
    }
    match obj {
      case Arr(_) =>
        var result := CopyArray(obj, removeFunctions);
        return Arr(result);
      case Obj(_) =>
        var result := CopyObject(obj, removeFunctions);
        return Obj(result);
      case _ =>
        return obj;
    }
  }

  /** The `forEach` over an array: each element copied and pushed, functions kept or skipped. */
  method CopyArray(obj: Value, removeFunctions: bool) returns (result: seq<Value>)
    requires obj.Arr?
    ensures result == CopyElems(obj, removeFunctions, 0)
    decreases obj, 0
  {
    var s := obj.elems;
    result := [];
    for i := 0 to |s|
      invariant result + CopyElems(obj, removeFunctions, i) == CopyElems(obj, removeFunctions, 0)
    {
      var x := s[i];
      ghost var rest := CopyElems(obj, removeFunctions, i + 1);
      assert CopyElems(obj, removeFunctions, i) == (if Dropped(x, removeFunctions) then [] else [CopyMember(x, removeFunctions)]) + rest;
      if x.Func? {
        if !removeFunctions {
          result := result + [x];
        }
      } else {
        var c := CopyWithFunctions(x, removeFunctions);
        result := result + [c];
      }
      assert result + rest == CopyElems(obj, removeFunctions, 0);
    }
  }

  /** The `for ... in` over an object: each property copied, functions kept or skipped. */
  method CopyObject(obj: Value, removeFunctions: bool) returns (result: map<string, Value>)
    requires obj.Obj?
    ensures Obj(result) == DeepCopy(obj, removeFunctions)
    decreases obj, 0
  {
    var m := obj.props;
    result := map[];
    var todo := m.Keys;
    while todo != {}
      invariant todo <= m.Keys
      invariant forall k :: k in result <==> k in m && k !in todo && !Dropped(m[k], removeFunctions)
      invariant forall k | k in result :: result[k] == CopyMember(m[k], removeFunctions)
      decreases |todo|
    {
      var k :| k in todo;
      todo := todo - {k};
      var val := m[k];
      if val.Func? {
        if !removeFunctions {
          result := result[k := val];
        }
      } else {
        var c := CopyWithFunctions(val, removeFunctions);
        result := result[k := c];
      }
    }
    CopiedAllProperties(obj, removeFunctions, result);
  }

  /** A map holding the copy of every kept property, and nothing else, is the object's copy. */
  lemma CopiedAllProperties(obj: Value, removeFunctions: bool, result: map<string, Value>)
    requires obj.Obj?
    requires forall k :: k in result <==> k in obj.props && !Dropped(obj.props[k], removeFunctions)
    requires forall k | k in result :: result[k] == CopyMember(obj.props[k], removeFunctions)
    ensures Obj(result) == DeepCopy(obj, removeFunctions)
  {
    var m := obj.props;
    assert result == map k | k in m && !Dropped(m[k], removeFunctions) :: CopyMember(m[k], removeFunctions);
  }

  /**
   * Keeping functions, or copying a value that holds none, gives back an
   * equal value: the copy has the same shape and the same leaves.
   */
  lemma {:induction false} DeepCopyIsIdentity(v: Value, removeFunctions: bool)
    requires !removeFunctions || NoFunctions(v)
    ensures DeepCopy(v, removeFunctions) == v
    decreases v
  {
    if Truthy(v) {
      match v
      case Arr(s) =>
        forall j | 0 <= j < |s|
          ensures CopyMember(s[j], removeFunctions) == s[j] && !Dropped(s[j], removeFunctions)
        {
          DeepCopyIsIdentity(s[j], removeFunctions);
        }
        CopyElemsIsIdentity(v, removeFunctions, 0);
      case Obj(m) =>
        forall k | k in m
          ensures CopyMember(m[k], removeFunctions) == m[k] && !Dropped(m[k], removeFunctions)
        {
          DeepCopyIsIdentity(m[k], removeFunctions);
        }
      case _ =>
    }
  }

  lemma {:induction false} CopyElemsIsIdentity(v: Value, removeFunctions: bool, i: nat)
    requires v.Arr? && i <= |v.elems|
    requires forall j | 0 <= j < |v.elems| ::
      CopyMember(v.elems[j], removeFunctions) == v.elems[j] && !Dropped(v.elems[j], removeFunctions)
    ensures CopyElems(v, removeFunctions, i) == v.elems[i..]
    decreases |v.elems| - i
  {
    if i < |v.elems| {
      CopyElemsIsIdentity(v, removeFunctions, i + 1);
      assert v.elems[i..] == [v.elems[i]] + v.elems[i + 1..];
    }
  }

  /** With `removeFunctions`, no function is left anywhere in the copy of a non-function. */
  lemma {:induction false} DeepCopyRemovesFunctions(v: Value)
    requires !v.Func?
    ensures NoFunctions(DeepCopy(v, true))
    decreases v
  {
    if Truthy(v) {
      match v
      case Arr(s) =>
        forall j | 0 <= j < |s| && !s[j].Func?
          ensures NoFunctions(DeepCopy(s[j], true))
        {
          DeepCopyRemovesFunctions(s[j]);
        }
        CopyElemsFunctionFree(v, 0);
      case Obj(m) =>
        forall k | k in m && !m[k].Func?
          ensures NoFunctions(DeepCopy(m[k], true))
        {
          DeepCopyRemovesFunctions(m[k]);
        }
      case _ =>
    }
  }

  lemma {:induction false} CopyElemsFunctionFree(v: Value, i: nat)
    requires v.Arr? && i <= |v.elems|
    requires forall j | 0 <= j < |v.elems| && !v.elems[j].Func? :: NoFunctions(DeepCopy(v.elems[j], true))
    ensures forall x | x in CopyElems(v, true, i) :: NoFunctions(x)
    decreases |v.elems| - i
  {
    if i < |v.elems| {
      CopyElemsFunctionFree(v, i + 1);
    }
  }

  /** Copying with `removeFunctions` a second time changes nothing. */
  lemma DeepCopyIdempotent(v: Value)
    ensures DeepCopy(DeepCopy(v, true), true) == DeepCopy(v, true)
  {
    if !v.Func? {
      DeepCopyRemovesFunctions(v);
      DeepCopyIsIdentity(DeepCopy(v, true), true);
    }
  }

  // ---------------------------------------------------------------------
  // copyFunctions
  // ---------------------------------------------------------------------

  function Digit(d: nat): char
    requires d < 10
  {
    ('0' as int + d) as char
  }

  /** The property name under which `for ... in` visits index `i` of an array: its decimal digits. */
  function IndexKey(i: nat): (r: string)
    ensures |r| > 0
  {
    if i < 10 then [Digit(i)] else IndexKey(i / 10) + [Digit(i % 10)]
  }

  /**
   * `copyFunctions(target, source)`: grafts the functions found in `source`
   * onto the matching places of `target`.
   *
   * - an array target takes, element by element, the grafts from an array
   *   source, then gains the truthy grafts of the source's extra elements;
   *   any other source leaves it as it is;
   * - an object or array source is walked property by property over
   *   `target || {}`, keeping only truthy grafts; with a falsy target and
   *   nothing kept the result is `null`;
   * - a function source replaces the target; anything else keeps it.
   *
   * A truthy target that is neither an array nor an object comes back as it
   * is (the writes onto it are not modelled).
   */
  function CopyFunctions(target: Value, source: Value): (r: Value)
    ensures Truthy(target) ==> Truthy(r)
    ensures target.Arr? ==> r.Arr? && |r.elems| >= |target.elems|
    ensures target.Obj? && IsObjectLike(source) ==> r.Obj? && target.props.Keys <= r.props.Keys
    ensures target.Arr? && !source.Arr? ==> r == target
    ensures !target.Arr? && source.Func? ==> r == source
    decreases source, 2
  {
    if target.Arr? then
      if !source.Arr? then target
      else
        var t, s := target.elems, source.elems;
        var n := if |s| < |t| then |s| else |t|;
        Arr(seq(n, i requires 0 <= i < n => CopyFunctions(t[i], s[i])) + t[n..] + Appended(source, |t|))
    else if Truthy(source) && IsObjectLike(source) then
      if Truthy(target) && !target.Obj? then target
      else
        var base := if target.Obj? then target.props else map[];
        var ret := Grafted(base, source);
        // `hasModified` is false exactly when no graft was kept; from an
        // empty base that leaves the result empty
        if !Truthy(target) && ret == map[] then Null else Obj(ret)
    else if source.Func? then source
    else target
  }

  /** The truthy grafts of the elements of the array `source` from index `i` on, pushed in order. */
  function Appended(source: Value, i: nat): (r: seq<Value>)
    requires source.Arr?
    ensures i <= |source.elems| ==> i + |r| <= |source.elems|
    ensures forall j | 0 <= j < |r| :: Truthy(r[j])
    decreases source, 0, |source.elems| - i
  {
    if i >= |source.elems| then []
    else
      var fnc := CopyFunctions(Null, source.elems[i]);
      (if Truthy(fnc) then [fnc] else []) + Appended(source, i + 1)
  }

  /** `ret` after the `for ... in` loop over the properties of `source`. */
  function Grafted(base: map<string, Value>, source: Value): (r: map<string, Value>)
    requires IsObjectLike(source)
    ensures base.Keys <= r.Keys
    ensures forall k | k in r && (k !in base || r[k] != base[k]) :: Truthy(r[k])
    ensures source.Obj? ==> r.Keys <= base.Keys + source.props.Keys
    decreases source, 1
  {
    match source
    case Obj(m) =>
      base + map k | k in m && Truthy(CopyFunctions(Get(base, k), m[k])) :: CopyFunctions(Get(base, k), m[k])
    case Arr(_) => GraftedElems(base, source, 0)
  }

  /** The same loop over an array source, whose properties are its index keys. */
  function GraftedElems(acc: map<string, Value>, source: Value, i: nat): (r: map<string, Value>)
    requires source.Arr?
    ensures acc.Keys <= r.Keys
    ensures forall k | k in r && (k !in acc || r[k] != acc[k]) :: Truthy(r[k])
    decreases source, 0, |source.elems| - i
  {
    if i >= |source.elems| then acc
    else
      var k := IndexKey(i);
      var result := CopyFunctions(Get(acc, k), source.elems[i]);
      GraftedElems(if Truthy(result) then acc[k := result] else acc, source, i + 1)
  }

  /**
   * A source without functions grafts nothing onto a falsy target: an
   * object or array source gives `null`, anything else the target itself.
   */
  lemma {:induction false} NothingToGraft(target: Value, source: Value)
    requires !Truthy(target) && NoFunctions(source)
    ensures CopyFunctions(target, source) == if IsObjectLike(source) then Null else target
    decreases source
  {
    match source
    case Obj(m) =>
      forall k | k in m
        ensures !Truthy(CopyFunctions(Undefined, m[k]))
      {
        NothingToGraft(Undefined, m[k]);
      }
      assert Grafted(map[], source) == map[];
    case Arr(s) =>
      forall j | 0 <= j < |s|
        ensures !Truthy(CopyFunctions(Undefined, s[j]))
      {
        NothingToGraft(Undefined, s[j]);
      }
      GraftedElemsEmpty(source, 0);
    case _ =>
  }

  lemma {:induction false} GraftedElemsEmpty(source: Value, i: nat)
    requires source.Arr?
    requires forall j | 0 <= j < |source.elems| :: !Truthy(CopyFunctions(Undefined, source.elems[j]))
    ensures GraftedElems(map[], source, i) == map[]
    decreases |source.elems| - i
  {
    if i < |source.elems| {
      GraftedElemsEmpty(source, i + 1);
    }
  }

  /**
   * Onto an object target, a function-free object or array source adds no
   * property: the keys stay those of the target.
   */
  lemma TargetKeysKept(target: Value, source: Value)
    requires target.Obj? && IsObjectLike(source) && NoFunctions(source)
    ensures CopyFunctions(target, source).Obj?
    ensures CopyFunctions(target, source).props.Keys == target.props.Keys
  {
    match source
    case Obj(m) =>
      forall k | k in m && k !in target.props
        ensures !Truthy(CopyFunctions(Get(target.props, k), m[k]))
      {
        NothingToGraft(Undefined, m[k]);
      }
    case Arr(s) =>
      forall j | 0 <= j < |s|
        ensures !Truthy(CopyFunctions(Undefined, s[j]))
      {
        NothingToGraft(Undefined, s[j]);
      }
      GraftedElemsKeys(target.props, source, 0);
  }

  lemma {:induction false} GraftedElemsKeys(acc: map<string, Value>, source: Value, i: nat)
    requires source.Arr?
    requires forall j | 0 <= j < |source.elems| :: !Truthy(CopyFunctions(Undefined, source.elems[j]))
    ensures GraftedElems(acc, source, i).Keys == acc.Keys
    decreases |source.elems| - i
  {
    if i < |source.elems| {
      var k := IndexKey(i);
      var result := CopyFunctions(Get(acc, k), source.elems[i]);
      if Truthy(result) {
        assert k in acc;
        assert acc[k := result].Keys == acc.Keys;
      }
      GraftedElemsKeys(if Truthy(result) then acc[k := result] else acc, source, i + 1);
    }
  }

  /**
   * A function under key `k` of an object source lands under `k` in the
   * result, unless the target holds an array there.
   */
  lemma FunctionGrafted(target: Value, source: Value, k: string)
    requires !target.Arr? && !(Truthy(target) && !target.Obj?)
    requires source.Obj? && k in source.props && source.props[k].Func?
    requires target.Obj? ==> !Get(target.props, k).Arr?
    ensures CopyFunctions(target, source).Obj?
    ensures k in CopyFunctions(target, source).props
    ensures CopyFunctions(target, source).props[k] == source.props[k]
  {
    var base := if target.Obj? then target.props else map[];
    assert CopyFunctions(Get(base, k), source.props[k]) == source.props[k];
  }

  /**
   * Over an array target and an array source, the function at index `i` of
   * the source replaces the target's element there, unless that element is
   * an array; target elements past the end of the source are kept.
   */
  lemma ArrayElementGrafted(t: seq<Value>, s: seq<Value>, i: nat)
    requires i < |s| && i < |t| && s[i].Func? && !t[i].Arr?
    ensures |CopyFunctions(Arr(t), Arr(s)).elems| >= |t|
    ensures CopyFunctions(Arr(t), Arr(s)).elems[i] == s[i]
    ensures forall j | |s| <= j < |t| :: CopyFunctions(Arr(t), Arr(s)).elems[j] == t[j]
  {
  }

  /** Without a target, an array nested in the source comes back as an object keyed by index. */
  lemma ArrayWithoutTargetBecomesObject(f: nat)
    ensures CopyFunctions(Null, Arr([Func(f)])) == Obj(map["0" := Func(f)])
  {
    var source := Arr([Func(f)]);
    assert IndexKey(0) == "0";
    assert GraftedElems(map[], source, 0) == GraftedElems(map["0" := Func(f)], source, 1);
  }

  // ---------------------------------------------------------------------
  // graphMatches
  // ---------------------------------------------------------------------

  /**
   * The inner search `m(o, i)` of graphMatches, with the intended meaning:
   * a truthy value at depth `i <= 3` matches when it is a string holding
   * `val` once lower-cased, or an array or object with a matching member.
   */
  predicate Matches(o: Value, i: nat, val: string)
    ensures Matches(o, i, val) ==> exists x | x in Leaves(o, 3 - i) :: Includes(Lower(x), val)
    decreases o
  {
    if !Truthy(o) || i > 3 then false
    else match o
      case Arr(s) =>
        var found := exists j | 0 <= j < |s| :: Matches(s[j], i + 1, val);
        assert found ==> exists j, x | 0 <= j < |s| && x in Leaves(s[j], 3 - i - 1) :: Includes(Lower(x), val);
        found
      case Obj(m) =>
        var found := exists k | k in m :: Matches(m[k], i + 1, val);
        assert found ==> exists k, x | k in m && x in Leaves(m[k], 3 - i - 1) :: Includes(Lower(x), val);
        found
      case Str(s) => Includes(Lower(s), val)
      case _ => false
  }

  /**
   * `graphMatches(item, val)`: `false` for a falsy item, `true` for an empty
   * `val`, otherwise a case-insensitive search of `item` down to depth 3.
   */
  predicate GraphMatches(item: Value, val: string)
    ensures GraphMatches(item, val) ==> Truthy(item)
    ensures Truthy(item) && val == "" ==> GraphMatches(item, val)
    ensures GraphMatches(item, val) && val != "" ==>
      exists x | x in Leaves(item, 3) :: Includes(Lower(x), Lower(val))
  {
    if !Truthy(item) then false
    else if val == "" then true
    else Matches(item, 0, Lower(val))
  }

  /** The strings found in `v` at most `budget` levels down. */
  function Leaves(v: Value, budget: int): set<string>
    decreases v
  {
    if budget < 0 then {}
    else
      var below := budget - 1;
      match v
      case Str(s) => {s}
      case Arr(s) => set j, x | 0 <= j < |s| && x in Leaves(s[j], below) :: x
      case Obj(m) => set k, x | k in m && x in Leaves(m[k], below) :: x
      case _ => {}
  }

  /** The search finds `val` exactly when some string within reach holds it. */
  lemma {:induction false} MatchesIffLeaf(o: Value, i: nat, val: string)
    requires val != ""
    ensures Matches(o, i, val) <==> exists x | x in Leaves(o, 3 - i) :: Includes(Lower(x), val)
    decreases o
  {
    if i > 3 {
      assert Leaves(o, 3 - i) == {};
    } else {
      match o
      case Str(s) =>
        if s == "" {
          assert !Includes(Lower(s), val);
        }
      case Arr(s) =>
        forall j | 0 <= j < |s|
          ensures Matches(s[j], i + 1, val) <==> exists x | x in Leaves(s[j], 3 - (i + 1)) :: Includes(Lower(x), val)
        {
          MatchesIffLeaf(s[j], i + 1, val);
        }
      case Obj(m) =>
        forall k | k in m
          ensures Matches(m[k], i + 1, val) <==> exists x | x in Leaves(m[k], 3 - (i + 1)) :: Includes(Lower(x), val)
        {
          MatchesIffLeaf(m[k], i + 1, val);
        }
      case _ =>
    }
  }

  /**
   * graphMatches is true exactly for a truthy item and either an empty
   * `val` or a string at depth at most 3 that holds `val`, ignoring case.
   */
  lemma GraphMatchesIffLeaf(item: Value, val: string)
    ensures GraphMatches(item, val) <==>
      Truthy(item) && (val == "" || exists x | x in Leaves(item, 3) :: Includes(Lower(x), Lower(val)))
  {
    if Truthy(item) && val != "" {
      assert Lower(val)[0] == LowerChar(val[0]);
      MatchesIffLeaf(item, 0, Lower(val));
    }
  }

  /**
   * `m(o, i)` as written: an object matches when the first of its keys, in
   * `order(m)`, whose value matches is itself truthy, so a match found only
   * under the key `""` is lost. `order` stands for `Object.keys`.
   */
  predicate MatchesAsWritten(o: Value, i: nat, val: string, order: map<string, Value> -> seq<string>)
    ensures MatchesAsWritten(o, i, val, order) ==> Matches(o, i, val)
    decreases o
  {
    if !Truthy(o) || i > 3 then false
    else match o
      case Arr(s) => exists j | 0 <= j < |s| :: MatchesAsWritten(s[j], i + 1, val, order)
      case Obj(m) =>
        var ks := order(m);
        exists j | 0 <= j < |ks| ::
          && ks[j] in m && MatchesAsWritten(m[ks[j]], i + 1, val, order)
          && (forall j' | 0 <= j' < j :: !(ks[j'] in m && MatchesAsWritten(m[ks[j']], i + 1, val, order)))
          && ks[j] != ""
      case Str(s) => Includes(Lower(s), val)
      case _ => false
  }

  predicate GraphMatchesAsWritten(item: Value, val: string, order: map<string, Value> -> seq<string>)
    ensures GraphMatchesAsWritten(item, val, order) ==> GraphMatches(item, val)
  {
    if !Truthy(item) then false
    else if val == "" then true
    else MatchesAsWritten(item, 0, Lower(val), order)
  }

  /** `order` lists every key of every object. */
  ghost predicate ListsAllKeys(order: map<string, Value> -> seq<string>) {
    forall m: map<string, Value>, k: string | k in m :: k in order(m)
  }

  /** No object anywhere in `v` has the empty string as a key. */
  predicate NoEmptyKey(v: Value) {
    match v
    case Arr(s) => forall j | 0 <= j < |s| :: NoEmptyKey(s[j])
    case Obj(m) => "" !in m && forall k | k in m :: NoEmptyKey(m[k])
    case _ => true
  }

  /** Without empty keys, the search as written and the intended search agree. */
  lemma {:induction false} AsWrittenAgreesWithoutEmptyKeys(o: Value, i: nat, val: string, order: map<string, Value> -> seq<string>)
    requires ListsAllKeys(order) && NoEmptyKey(o)
    ensures MatchesAsWritten(o, i, val, order) <==> Matches(o, i, val)
    decreases o
  {
    if Truthy(o) && i <= 3 {
      match o
      case Arr(s) =>
        forall j | 0 <= j < |s|
          ensures MatchesAsWritten(s[j], i + 1, val, order) <==> Matches(s[j], i + 1, val)
        {
          AsWrittenAgreesWithoutEmptyKeys(s[j], i + 1, val, order);
        }
      case Obj(m) =>
        if Matches(o, i, val) {
          var k :| k in m && Matches(m[k], i + 1, val);
          AsWrittenAgreesWithoutEmptyKeys(m[k], i + 1, val, order);
          assert k in order(m);
          FirstMatchFound(m, i, val, order, k);
        }
      case _ =>
    }
  }

  /**
   * When some key listed by `order` leads to a match and no key is empty,
   * the search as written finds the first such key and reports the match.
   */
  lemma FirstMatchFound(m: map<string, Value>, i: nat, val: string, order: map<string, Value> -> seq<string>, k: string)
    requires i <= 3 && "" !in m
    requires k in m && k in order(m) && MatchesAsWritten(m[k], i + 1, val, order)
    ensures MatchesAsWritten(Obj(m), i, val, order)
  {
    var ks := order(m);
    var j := 0;
    while !(ks[j] in m && MatchesAsWritten(m[ks[j]], i + 1, val, order))
      invariant 0 <= j < |ks| && k in ks[j..]
      invariant forall j' | 0 <= j' < j :: !(ks[j'] in m && MatchesAsWritten(m[ks[j']], i + 1, val, order))
      decreases |ks| - j
    {
      j := j + 1;
    }
    assert ks[j] != "";
  }

  /** The lost match: `{"": "abc"}` does not match `"a"` as written, though it should. */
  lemma EmptyKeyMatchIsLost(order: map<string, Value> -> seq<string>)
    requires forall k :: k in order(map["" := Str("abc")]) <==> k == ""
    ensures !GraphMatchesAsWritten(Obj(map["" := Str("abc")]), "a", order)
    ensures GraphMatches(Obj(map["" := Str("abc")]), "a")
  {
    var m := map["" := Str("abc")];
    assert Lower("a") == "a";
    assert Lower("abc") == "abc";
    assert "a" <= "abc"[0..];
    assert Matches(m[""], 1, "a");
  }
}
