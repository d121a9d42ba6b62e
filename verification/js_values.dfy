/**
 * The fragment of JavaScript values and operations the adapter observes:
 * truthiness tests, property reads and writes, destructuring defaults and
 * argument spreading. Numbers are modelled as integers.
 */
module JsValues {
  import opened Wrappers

  datatype JsValue =
    | Undefined
    | Null
    | Bool(b: bool)
    | Num(n: int)
    | Str(s: string)
    | Arr(items: seq<JsValue>)
    | Obj(props: map<string, JsValue>)

  /** `undefined` and `null`: the values on which a property access throws */
  predicate Nullish(v: JsValue) {
    v.Undefined? || v.Null?
  }

  /** ToBoolean, the test behind every `if (x)` and `!x` (section 7.1.2 of ECMA-262) */
  predicate Truthy(v: JsValue) {
    match v
    case Undefined => false
    case Null => false
    case Bool(b) => b
    case Num(n) => n != 0
    case Str(s) => |s| > 0
    case Arr(_) => true
    case Obj(_) => true
  }

  /** Among the values modelled (no BigInt or Symbol), exactly five are falsy; every array and object, even an empty one, is truthy. */
  lemma FalsyValues(v: JsValue)
    ensures !Truthy(v) <==> v in {Undefined, Null, Bool(false), Num(0), Str("")}
    ensures v.Arr? || v.Obj? ==> Truthy(v)
  {
  }

  /**
   * Reading `v.key`: a TypeError (None) when `v` is nullish, the own property
   * of an object, and `undefined` for a missing key or any other value.
   */
  function GetProperty(v: JsValue, key: string): (r: Option<JsValue>)
    ensures r.None? <==> Nullish(v)
    ensures r.Some? && !r.value.Undefined? ==> v.Obj? && key in v.props && v.props[key] == r.value
    ensures v.Obj? && key in v.props ==> r == Some(v.props[key])
  {
    match v
    case Undefined => None
    case Null => None
    case Obj(m) => Some(if key in m then m[key] else Undefined)
    case _ => Some(Undefined)
  }

  /** `v.key` on a value known not to be nullish */
  function Read(v: JsValue, key: string): JsValue
    requires !Nullish(v)
  {
    GetProperty(v, key).value
  }

  /** A destructuring default `x = d`: it replaces `undefined` only */
  function OrDefault(v: JsValue, d: JsValue): (r: JsValue)
    ensures v.Undefined? ==> r == d
    ensures !v.Undefined? ==> r == v
  {
    if v.Undefined? then d else v
  }

  /**
   * Assigning `v.key = x` in a sloppy-mode module: a TypeError (None) when `v`
   * is nullish, an updated object, and no change to any other value.
   */
  function AssignProperty(v: JsValue, key: string, x: JsValue): (r: Option<JsValue>)
    ensures r.None? <==> Nullish(v)
    ensures r.Some? && !v.Obj? ==> r.value == v
  {
    match v
    case Undefined => None
    case Null => None
    case Obj(m) => Some(Obj(m[key := x]))
    case _ => Some(v)
  }

  /** On an object, a read after an assignment sees the assigned value, and every other key is untouched. */
  lemma AssignThenRead(v: JsValue, key: string, x: JsValue, other: string)
    requires v.Obj?
    ensures AssignProperty(v, key, x).Some?
    ensures GetProperty(AssignProperty(v, key, x).value, key) == Some(x)
    ensures other != key ==> GetProperty(AssignProperty(v, key, x).value, other) == GetProperty(v, other)
  {
  }

  /**
   * Spreading `...v` into an argument list: the elements of an array, the
   * characters of a string one by one, and a TypeError (None) for anything
   * that is not iterable.
   */
  function Spread(v: JsValue): (r: Option<seq<JsValue>>)
    ensures r.Some? <==> v.Arr? || v.Str?
    ensures v.Arr? ==> r == Some(v.items)
    ensures v.Str? ==> |r.value| == |v.s| && forall i :: 0 <= i < |v.s| ==> r.value[i] == Str([v.s[i]])
  {
    match v
    case Arr(xs) => Some(xs)
    case Str(s) => Some(seq(|s|, i requires 0 <= i < |s| => Str([s[i]])))
    case _ => None
  }
}
