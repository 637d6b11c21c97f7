/** The values a JavaScript handler sees after `JSON.parse` (RFC 8259 data) plus
    `undefined`, which a property read of a missing key yields; JavaScript
    truthiness, the `||` operator, property reads and `String(v)`. */
module Js {
  import opened Text

  datatype Option<T> = None | Some(value: T)

  /** A parsed JSON value. Numbers are integers here; `Undefined` only arises from
      reading a key that is absent. */
  datatype JsValue =
    | Undefined
    | Null
    | Bool(b: bool)
    | Num(n: int)
    | Str(s: string)
    | Arr(items: seq<JsValue>)
    | Obj(fields: map<string, JsValue>)

  /** JavaScript truthiness: `undefined`, `null`, `false`, `0` and `""` are falsy;
      every array and every object, even an empty one, is truthy. */
  predicate Truthy(v: JsValue) {
    match v
    case Undefined => false
    case Null => false
    case Bool(b) => b
    case Num(n) => n != 0
    case Str(s) => s != ""
    case Arr(_) => true
    case Obj(_) => true
  }

  /** `null` or `undefined`: reading a property of these throws a TypeError. */
  predicate Nullish(v: JsValue) {
    v.Undefined? || v.Null?
  }

  /** `typeof v === "object"`, which also holds for arrays and for `null`. */
  predicate IsObjectType(v: JsValue) {
    v.Null? || v.Arr? || v.Obj?
  }

  /** `a || b`. */
  function Or(a: JsValue, b: JsValue): (r: JsValue)
    ensures Truthy(a) ==> r == a
    ensures !Truthy(a) ==> r == b
  {
    if Truthy(a) then a else b
  }

  /** `v.key` (or `v?.key`) for one of the non-index keys the handlers read: present
      only on an object that holds it. None of those keys names a property that
      arrays, strings, numbers or booleans carry. */
  function Field(v: JsValue, key: string): (r: JsValue)
    ensures v.Obj? && key in v.fields ==> r == v.fields[key]
    ensures r != Undefined ==> v.Obj? && key in v.fields && r == v.fields[key]
  {
    if v.Obj? && key in v.fields then v.fields[key] else Undefined
  }

  /** `v.length` on a value that is not `null` or `undefined` (reading it there
      throws): the size of a string or an array, the own "length" key of a plain
      object, and `undefined` on numbers and booleans. A string's size counts
      characters, where JavaScript counts UTF-16 code units. */
  function Length(v: JsValue): (r: JsValue)
    requires !Nullish(v)
    ensures v.Str? ==> r == Num(|v.s|)
    ensures v.Arr? ==> r == Num(|v.items|)
    ensures v.Obj? ==> r == Field(v, "length")
    ensures v.Num? || v.Bool? ==> r == Undefined
  {
    match v
    case Str(s) => Num(|s|)
    case Arr(items) => Num(|items|)
    case Obj(_) => Field(v, "length")
    case _ => Undefined
  }

  /** Text of an optional string as string concatenation renders it: an absent
      value is the word "undefined". */
  function ConcatText(o: Option<string>): string {
    if o.Some? then o.value else "undefined"
  }

  /** An optional string read from a request body or a form, tested with `!x`. */
  predicate Present(o: Option<string>) {
    o.Some? && o.value != ""
  }

  /** `String(v)`: arrays are joined with commas, their null and undefined
      elements become empty, plain objects print as "[object Object]". */
  function ToJsString(v: JsValue): (r: string)
    ensures v.Str? ==> r == v.s
    ensures v.Num? ==> r == IntToString(v.n)
  {
    match v
    case Undefined => "undefined"
    case Null => "null"
    case Bool(b) => if b then "true" else "false"
    case Num(n) => IntToString(n)
    case Str(s) => s
    case Arr(items) => JoinElements(items)
    case Obj(_) => "[object Object]"
  }

  /** `items.join(",")` as `Array.prototype.toString` does it. */
  function JoinElements(items: seq<JsValue>): string
    decreases items
  {
    if items == [] then ""
    else
      var first := if Nullish(items[0]) then "" else ToJsString(items[0]);
      if |items| == 1 then first else first + "," + JoinElements(items[1..])
  }
}
