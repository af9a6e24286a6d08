/** JavaScript values as they come out of `JSON.parse` and `response.json()` (numbers are
    integers here), with the two ways the front end reads into them: `v.key` and `v[0]`. */
module JsValue {
  import opened Wrappers
  import opened JsStrings

  datatype Value =
    | Undefined
    | Null
    | Bool(b: bool)
    | Num(n: int)
    | Str(s: string)
    | Arr(items: seq<Value>)
    | Obj(fields: map<string, Value>)

  /** JavaScript truthiness. */
  predicate Truthy(v: Value)
  {
    match v
    case Undefined => false
    case Null => false
    case Bool(b) => b
    case Num(n) => n != 0
    case Str(s) => |s| > 0
    case Arr(_) => true
    case Obj(_) => true
  }

  /** `v.key` for a key that is neither an index nor a built-in property such as `length`;
      `None` is the TypeError thrown on `null` and `undefined`. */
  function Member(v: Value, key: string): (r: Option<Value>)
    ensures r.None? <==> v.Undefined? || v.Null?
    ensures v.Obj? && key in v.fields ==> r == Some(v.fields[key])
    ensures !v.Obj? && r.Some? ==> r.value == Undefined
  {
    match v
    case Undefined => None
    case Null => None
    case Obj(m) => Some(if key in m then m[key] else Undefined)
    case _ => Some(Undefined)
  }

  /** `v[0]`; `None` is the TypeError thrown on `null` and `undefined`. */
  function Index0(v: Value): (r: Option<Value>)
    ensures r.None? <==> v.Undefined? || v.Null?
    ensures v.Arr? ==> r == Some(if |v.items| > 0 then v.items[0] else Undefined)
    ensures v.Str? ==> r == Some(if |v.s| > 0 then Str([v.s[0]]) else Undefined)
  {
    match v
    case Undefined => None
    case Null => None
    case Arr(xs) => Some(if |xs| > 0 then xs[0] else Undefined)
    case Str(s) => Some(if |s| > 0 then Str([s[0]]) else Undefined)
    case Obj(m) => Some(if "0" in m then m["0"] else Undefined)
    case _ => Some(Undefined)
  }

  /** `String(v)`: how a value reads once it is put into a message or a URL. */
  function ToJsString(v: Value): (r: string)
    ensures v.Str? ==> r == v.s
    decreases v, 1
  {
    match v
    case Undefined => "undefined"
    case Null => "null"
    case Bool(b) => if b then "true" else "false"
    case Num(n) => IntToString(n)
    case Str(s) => s
    case Arr(items) => JoinItems(v, items)
    case Obj(_) => "[object Object]"
  }

  /** The items of an array joined by commas, `null` and `undefined` items left empty. */
  function JoinItems(ghost whole: Value, items: seq<Value>): string
    requires whole.Arr? && items <= whole.items
    decreases whole, 0, |items|
  {
    if |items| == 0 then ""
    else
      var tail := items[|items| - 1];
      assert tail in whole.items;
      var last := if tail.Null? || tail.Undefined? then "" else ToJsString(tail);
      if |items| == 1 then last else JoinItems(whole, items[..|items| - 1]) + "," + last
  }
}
