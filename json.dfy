/**
 * The JavaScript values the handlers read after `JSON.parse` / `request.json()`:
 * property access, optional chaining, truthiness, nullish defaults and string
 * conversion (template interpolation and `String(v)`).
 */
module Json {
  import opened Text

  /** A JavaScript value as produced by `JSON.parse`, plus `undefined` for a missing property. */
  datatype Value =
    | Undefined
    | Null
    | Bool(b: bool)
    | Num(n: int)
    | Str(s: string)
    | Arr(elems: seq<Value>)
    | Obj(fields: map<string, Value>)

  /** What a JSON parser (`JSON.parse`, `request.json()`) returns: a value, or the message of the error it throws. */
  datatype ParseResult = Parsed(value: Value) | SyntaxError(message: string)

  /** `null` or `undefined`: the values `?.` short-circuits on and `??` replaces. */
  predicate IsNullish(v: Value)
  {
    v.Undefined? || v.Null?
  }

  /** JavaScript truthiness: `!v` is the negation of this. */
  predicate Truthy(v: Value)
  {
    match v
    case Undefined => false
    case Null => false
    case Bool(b) => b
    case Num(n) => n != 0
    case Str(s) => s != ""
    case Arr(_) => true
    case Obj(_) => true
  }

  /**
   * `v.name` for a non-nullish `v` and a property name that is neither an array index
   * nor "length": an object's own field, or `undefined`.
   */
  function Prop(v: Value, name: string): (r: Value)
    requires !IsNullish(v)
    ensures !v.Obj? ==> r == Undefined
    ensures v.Obj? ==> (r == if name in v.fields then v.fields[name] else Undefined)
  {
    match v
    case Obj(fields) => if name in fields then fields[name] else Undefined
    case _ => Undefined
  }

  /** `v?.name`: `undefined` when `v` is nullish, `v.name` otherwise. */
  function Chain(v: Value, name: string): (r: Value)
    ensures IsNullish(v) ==> r == Undefined
    ensures !IsNullish(v) ==> r == Prop(v, name)
  {
    if IsNullish(v) then Undefined else Prop(v, name)
  }

  /** `v?.[0]`: the first element of an array, the first character of a string, an object's "0" field. */
  function ChainIndex0(v: Value): (r: Value)
    ensures v.Arr? && v.elems != [] ==> r == v.elems[0]
    ensures v.Str? && v.s != "" ==> r == Str([v.s[0]])
    ensures (IsNullish(v) || v.Bool? || v.Num?) ==> r == Undefined
  {
    match v
    case Arr(es) => if es == [] then Undefined else es[0]
    case Str(s) => if s == "" then Undefined else Str([s[0]])
    case Obj(fields) => if "0" in fields then fields["0"] else Undefined
    case _ => Undefined
  }

  /** `String(v)`, which is also what `${v}` interpolates. */
  function Display(v: Value): string
    decreases v, 1
  {
    match v
    case Undefined => "undefined"
    case Null => "null"
    case Bool(b) => if b then "true" else "false"
    case Num(n) => IntToString(n)
    case Str(s) => s
    case Arr(es) => DisplayElems(es)
    case Obj(_) => "[object Object]"
  }

  /** `Array.prototype.toString`: elements joined by ",", with `null`/`undefined` elements as "". */
  function DisplayElems(es: seq<Value>): string
    decreases es, 0
  {
    if es == [] then ""
    else
      var head := if IsNullish(es[0]) then "" else Display(es[0]);
      if |es| == 1 then head else head + "," + DisplayElems(es[1..])
  }

  /** `v ?? fallback` followed by interpolation: the fallback replaces `null` and `undefined` only. */
  function DisplayOr(v: Value, fallback: string): (r: string)
    ensures IsNullish(v) ==> r == fallback
    ensures v.Str? ==> r == v.s
  {
    if IsNullish(v) then fallback else Display(v)
  }
}
